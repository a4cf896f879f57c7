# skynet, modelled in Dafny

This project models the parts of skynet, and of the LPeg and Lua copies it ships, in which a mistake is
hardest to see, and proves what they keep. The program works in place, and so does the model: objects are
classes whose methods are proved against functions of their abstract state, and protocols of several threads
are state machines whose every interleaving is covered.

| files | what they model |
|---|---|
| `LpegTree`, `LpegAnalysis`, `LpegVm`, `LpegCodegen`, `LpegLink`, `LpegCorrect`, `LpegDepth`, `LpegAsked`, `LpegHead`, `LpegCircle`, `LpegAfter`, `LpegSettle`, `LpegPeephole`, `LpegCompiler`, `LpegConstruct`, `LpegExamples` | the LPeg compiler for patterns without captures (analyses, optimised code, tail calls, peephole pass) and its machine, against ordered-choice semantics; on which patterns the analyses end, and which can be compiled |
| `LpegVerify`, `LpegEnds`, `LpegRefuse`, `LpegLimits` | the checks that are to make grammars terminate, what they miss, corrected ones, and exactly what is refused |
| `SocketSend` to `SocketThread` | sending on one TCP socket by many workers and the socket thread, and closing it from either side |
| `Scheduler`, `SchedulerProof`, `SchedulerSafety`, `SchedulerOrder`, `MessageQueue` | message queues that travel between a global list and workers, the order and length of their turns, reference-counted contexts, and the ring and list they are made of |
| `Timer` | five timing wheels over a clock that wraps |
| `HandleTable` | service handles and names |
| `DhExchange`, `Des`, `DesTables`, `DesStandard` | modular arithmetic, key agreement, DES against the tables of FIPS 46-3, and its paddings |
| `ShareData` | the read-only hash of shared tables |
| `SeriFormat`, `SeriSpec`, `Seri` | the message serializer, its format byte by byte, and its chain of blocks |
| `BsonFormat`, `BsonBack`, `BsonSpec`, `BsonIndex`, `Bson`, `Utf8` | BSON documents against the grammar of version 1.1, indexed replacement in place, and the UTF-8 check |
| `LineInfo` | Lua's compressed table of line numbers, written by the code generator and read by the debugger |
| `Framing`, `NetPack`, `DataBuffer`, `Harbor`, `SocketBuffer` | stream framers and the Lua socket buffer |
| `Words`, `LittleEndian`, `Growth` | bytes and little-endian words; sets that grow until they stand still |

What the proofs found in the code:

* `verifyrule` forgets that the part before a nested grammar may match the empty string, and nothing checks
  calls inside a look-behind; either lets a grammar through that never ends (`LpegLimits.ChecksMissThreeCases`).
  `LpegVerify` has the corrected checks: the flag is kept, a look-behind of width 0 counts as a lookahead, and one
  that steps back may call any rule that does not lead back to its own, or any at all from further on than where
  its rule was entered.
* On such grammars the compiler may not come back either. `getfirst` follows calls without a limit, also into
  negations and look-behinds, and overflows the stack on `A <- 'y' / (grammar{'x'})* A` and three more
  (`LpegLimits.AnalysesLoop`); whether it does can be read off the pattern (`LpegAsked.AnalysedSoon`). Where all
  analyses end, `finaltarget` may not: the code of `A <- B(#A)`, or of a negation that is always true in front of
  `A`, is a jump to itself (`LpegLimits.CompilerLoops`). This happens exactly when the rules of a grammar jump in a
  circle (`LpegSettle.CodeSettlesIff`). The corrected checks exclude both (`LpegCompiler.AcceptedCompilable`).
* `skynet_context_new` gives up its own reference and goes on to write `ctx->init` and to name the context in the
  log, and its caller reads the handle. If another thread retires the handle in between, they touch a deleted
  context (`SchedulerSafety.CreatorTooLate`, and `SchedulerSafety.NoUseAfterFree` for when exactly).
* `force_close` frees the write lists before it takes the lock. A worker may then write a packet behind the first
  half of another (`SocketSafety.ShutdownTears`). The framing breaks in exactly the runs that do both
  (`SocketSafety.WholeUnlessTears`).
* The handle scan passes over slot 0 when the 24-bit counter wraps inside it, and registration then meets a null
  context if slot 0 is the only free one (`HandleTable.Storage.Register` gives the exact condition, and
  `HandleTable.WearOut` leads there).
* The gate drops frames of length 0, and a harbor connection holds back an empty last frame until more data comes.
* Integer keys of shared tables are cut to 32 bits, and so are keys that are asked for: a key that does not fit is
  found, but iteration never gives it back. When cutting makes a hash key an array index, or equal to the key at
  its main position, a slot that was counted is never written, and lookups read it
  (`ShareData.Table.NoneFreeExactly`, `ShareData.Table.LookupsDefined`).
* Replacing a 32-bit field of a BSON document cuts the integer without a check, and an index entry is lost beyond
  64 MB.

`dafny verify dfyconfig.toml` checks the project.

Names of the source are quoted in the doc comments. Assumptions that the code needs: regions under one lock are
atomic; a service gets its handle and its queue in one step; socket packets are memory or raw pointers;
words are little-endian, as on the hosts that copy them.

## Model

| member | source | states |
|---|---|---|
| LpegCompiler.CompileAndMatch | 3rd/lpeg/lpvm.c:149-360 | for every pattern that the corrected checks accept, every subject and start: the analyses end, compiling, linking, peepholing and running the machine end, and with the end position (or failure) that ordered choice gives |
| LpegCompiler.CompileAndRun | 3rd/lpeg/lpvm.c:149-360 | the same for any pattern, checked or not, whose analyses end and whose rules do not jump in a circle, wherever ordered choice gives an answer at all |
| LpegCompiler.CompiledCorrect | 3rd/lpeg/lpcode.c:1001-1010 | the finished program of any pattern that can be compiled halts with the meaning of the pattern, wherever that meaning is defined; no check of the grammar is assumed |
| LpegCompiler.Compile | 3rd/lpeg/lpcode.c:1001-1010 | there is a program if and only if the analyses end with some room on the stack; it is the one about which CompiledCorrect speaks. The rules must not jump in a circle when the analyses end, which is exactly what the pass over the program needs |
| LpegCompiler.AcceptedCompilable | 3rd/lpeg/lpcode.c:1001-1010 | what the corrected checks accept can be compiled: every analysis ends and no rules jump in a circle |
| LpegCompiler.RoomIrrelevant | 3rd/lpeg/lpcode.c:1001-1010 | the program is the same with any more room for the analyses |
| LpegCompiler.CompileState.CodeGen | 3rd/lpeg/lpcode.c:919-944 | the dispatch comes back if and only if every analysis it asks for has an answer, and then has appended exactly the specified code of the pattern for the given `opt`, dominating test and follow set |
| LpegCompiler.CompileState.CodeChoice | 3rd/lpeg/lpcode.c:677-712 | all three forms of a choice: tested jump, shared choice under `opt`, and choice with commit or dropped second alternative; it comes back if and only if the analyses it asks for answer |
| LpegCompiler.CompileState.CodeAnd | 3rd/lpeg/lpcode.c:720-736 | a predicate of fixed length is coded with a step back, any other with a choice and a back commit; it comes back if and only if the analyses it asks for answer |
| LpegCompiler.CompileState.CodeRep | 3rd/lpeg/lpcode.c:777-813 | a repetition is coded as a span, as a loop guarded by a test, or with a partial commit (reusing the choice under `opt`); it comes back if and only if the analyses it asks for answer |
| LpegCompiler.CompileState.CodeNot | 3rd/lpeg/lpcode.c:823-837 | negation is coded as a test with a fail or as a choice with a double fail; it comes back if and only if the analyses it asks for answer |
| LpegCompiler.CompileState.CodeSeq1 | 3rd/lpeg/lpcode.c:899-911 | the first part of a sequence gets the first set of the second as follow set when needed, and its test stays in force only while nothing is consumed; it comes back if and only if the analyses it asks for answer |
| LpegCompiler.CompileState.CodeBehind | 3rd/lpeg/lpcode.c:659-663 | a look-behind steps back and matches with the full follow set; it comes back if and only if the analyses it asks for answer |
| LpegCompiler.CompileState.CodeChar | 3rd/lpeg/lpcode.c:561-567 | a character dominated by a test for it becomes an unchecked step |
| LpegCompiler.CompileState.CodeCharset | 3rd/lpeg/lpcode.c:588-605 | a set dominated by the same test becomes an unchecked step, a full one a single any |
| LpegCompiler.CompileState.CodeTestSet | 3rd/lpeg/lpcode.c:614-635 | no test when the empty string is accepted, else the test instruction of the set with its label open |
| LpegCompiler.CompileState.JumpToThere | 3rd/lpeg/lpcode.c:543-546 | the offset word of an instruction is set relative to it, and nothing is written without an instruction |
| LpegCompiler.CompileState.CodeGrammar | 3rd/lpeg/lpcode.c:868-884 | a grammar is a call of its first rule, a jump over the rules and the rules, with every open call closed; it comes back if and only if the analyses it asks for answer |
| LpegCompiler.CompileState.CodeRules | 3rd/lpeg/lpcode.c:873-881 | rules follow one another, each ended by a return, and their start addresses are recorded; it comes back if and only if the analyses it asks for answer |
| LpegCompiler.CompileState.CorrectCalls | 3rd/lpeg/lpcode.c:844-861 | every open call becomes a call of its rule, or a jump when its jump chain ends in a return; the search behind each call ends, also in a grammar whose rules jump in a circle |
| LpegCompiler.CompileState.FindTarget | 3rd/lpeg/lpcode.c:641-645 | following a chain of jumps ends, at an instruction that is no jump |
| LpegCompiler.CompileState.Peephole | 3rd/lpeg/lpcode.c:956-995 | the pass over the finished program is the specified sequence of forwardings |
| LpegCompiler.CompileState.PeepInstruction | 3rd/lpeg/lpcode.c:959-992 | one turn of the pass, with the second look after a jump was replaced by its destination |
| LpegExamples.TwoChars | 3rd/lpeg/lpcode.c:677-712 | the code of 'a' / 'b', instruction by instruction: a test and a jump, without a choice |
| LpegExamples.SameStart | 3rd/lpeg/lpcode.c:677-712 | the code of 'ab' / 'ac': a test and a choice, since both begin with the same character |
| LpegExamples.Loops | 3rd/lpeg/lpcode.c:777-813 | the code of 'a'* is one span; that of ('ab')* makes its choice once and commits partially |
| LpegExamples.Predicates | 3rd/lpeg/lpcode.c:720-837 | the code of the negation of 'a' is a test and a fail, and of its lookahead a match and a step back |
| LpegCorrect.GenCorrect | 3rd/lpeg/lpcode.c:919-944 | contextual correctness: if the continuation halts as `Cont` demands (under `opt` the stack top is the choice to reuse; it fails on characters outside `fl`), the code of the pattern does, given that the dominating test held |
| LpegCorrect.ChoiceCorrect | 3rd/lpeg/lpcode.c:677-712 | GenCorrect for choices |
| LpegCorrect.HeadChoiceCorrect | 3rd/lpeg/lpcode.c:682-693 | a choice without backtracking entry is right when the first pattern fails by its head or the first sets are disjoint |
| LpegCorrect.FullChoiceCorrect | 3rd/lpeg/lpcode.c:699-711 | a choice with backtracking entry, its protecting test, and the dropped second alternative |
| LpegCorrect.SeqCorrect | 3rd/lpeg/lpcode.c:899-911 | GenCorrect for sequences, including the follow set handed to the first part |
| LpegCorrect.RepCorrect | 3rd/lpeg/lpcode.c:777-813 | GenCorrect for repetitions |
| LpegCorrect.HeadRepCorrect | 3rd/lpeg/lpcode.c:786-794 | the loop guarded by a test only, entered at any iteration |
| LpegCorrect.AndCorrect | 3rd/lpeg/lpcode.c:720-736 | GenCorrect for predicates of both forms |
| LpegCorrect.NotCorrect | 3rd/lpeg/lpcode.c:823-837 | GenCorrect for negation of both forms |
| LpegCorrect.BehindCorrect | 3rd/lpeg/lpcode.c:659-663 | GenCorrect for look-behind |
| LpegCorrect.CallCorrect | 3rd/lpeg/lpcode.c:844-861 | a call, or the jump that replaces a tail call, does what the rule does |
| LpegCorrect.GrammarCorrect | 3rd/lpeg/lpcode.c:868-884 | GenCorrect for grammars |
| LpegLink.LinkFromResolves | 3rd/lpeg/lpcode.c:844-861 | closing the calls one by one resolves each of them to its rule and changes nothing else |
| LpegLink.GrammarStands | 3rd/lpeg/lpcode.c:868-884 | a linked grammar placed anywhere in a program is entered by a call, left by a jump, and has its rules at the recorded places |
| LpegAfter.GenOrderly | 3rd/lpeg/lpcode.c:844-861 | in the code of any pattern each jump stays inside, and the chain behind a call runs to the end or stops, never at a call closed before |
| LpegDepth.FinishesSoon | 3rd/lpeg/lpcode.c:196-399 | an analysis that ends at all ends within a number of nested calls that can be read off the pattern |
| LpegDepth.FixedLenMarks | 3rd/lpeg/lpcode.c:133-147 | for fixedlen, bounding the depth of calls gives what marking the calls on the way gives |
| LpegAsked.AnalysedSoon | 3rd/lpeg/lpcode.c:675-911 | all analyses that code generation asks for end with some room if and only if they do with the room that can be read off the pattern |
| LpegAsked.GenSame | 3rd/lpeg/lpcode.c:919-944 | with that room or any more the emitted code is the same |
| LpegEnds.FirstLeft | 3rd/lpeg/lpcode.c:294-370 | getfirst ends on every pattern in left position of a checked rule, with its calls, and with the bodies of negations and look-behinds |
| LpegEnds.AcceptedAnalysed | 3rd/lpeg/lpcode.c:675-911 | on a pattern that the corrected checks accept every analysis ends that code generation asks for, also in rules that are not used |
| LpegSettle.GenSettled | 3rd/lpeg/lpcode.c:919-944 | in the code of any pattern without a circle of jumping rules every chain of jumps ends |
| LpegSettle.GrammarSettled | 3rd/lpeg/lpcode.c:844-861 | also after tail calls of a grammar without circles were turned into jumps, every chain of jumps ends |
| LpegSettle.CodeSettlesIff | 3rd/lpeg/lpcode.c:641-653 | every chain of jumps in the emitted program ends, so that `finaltarget` always comes back, if and only if no compiled grammar has rules that jump in a circle |
| LpegHead.HeadCode | 3rd/lpeg/lpcode.c:919-944 | the chain of jumps from the start of the code of a pattern runs through it, stops, or meets a call of a certain rule, with or without code behind it, exactly as can be read off the pattern, whatever the code was generated for |
| LpegCircle.RuleStart | 3rd/lpeg/lpcode.c:844-861 | a rule of a linked grammar begins with a jump to another rule if and only if its pattern begins with a call behind which only the return is left |
| LpegCircle.EndsSoon | 3rd/lpeg/lpcode.c:844-861 | a chain of rules that jump to one another ends within as many jumps as there are rules, or never |
| LpegCircle.CircleShows | 3rd/lpeg/lpcode.c:844-861 | a circle of jumping rules in any grammar that is compiled is an endless chain of jumps in the code |
| LpegPeephole.PeepSimulates | 3rd/lpeg/lpcode.c:956-995 | after one turn of the pass every run that halts still halts, with the same result |
| LpegPeephole.PeepKeepsSettled | 3rd/lpeg/lpcode.c:956-995 | one turn of the pass creates no endless chain of jumps |
| LpegPeephole.PeepFromHalts | 3rd/lpeg/lpcode.c:956-995 | the whole pass keeps every answer of the machine |
| LpegVm.Match | 3rd/lpeg/lpvm.c:149-360 | the interpreter loop returns the answer of the step semantics, on one stack for alternatives and calls |
| LpegVm.Span | 3rd/lpeg/lpvm.c:225-231 | the span loop stops at the first character outside the set |
| LpegVm.PopAlternative | 3rd/lpeg/lpvm.c:280-294 | failing drops pending calls and takes the alternative below them |
| LpegVm.HaltsUnique | 3rd/lpeg/lpvm.c:149-360 | the machine has at most one answer |
| LpegAnalysis.NullableSound | 3rd/lpeg/lpcode.c:196-230 | a pattern that can match the empty string is reported nullable |
| LpegAnalysis.NoFailSound | 3rd/lpeg/lpcode.c:196-230 | a pattern reported nofail never fails |
| LpegAnalysis.FixedLenSound | 3rd/lpeg/lpcode.c:236-273 | every success of a pattern of fixed length n consumes n characters |
| LpegAnalysis.FirstSound | 3rd/lpeg/lpcode.c:294-370 | on a character outside the first set the pattern fails, or matches nothing and leaves it to a continuation that rejects it |
| LpegAnalysis.FirstAtEnd | 3rd/lpeg/lpcode.c:294-370 | a pattern whose first set does not accept the empty string fails at the end of the subject |
| LpegAnalysis.FirstMono | 3rd/lpeg/lpcode.c:294-370 | first sets grow with the follow set, and accepting the empty string does not depend on it |
| LpegAnalysis.HeadFailSound | 3rd/lpeg/lpcode.c:377-399 | a headfail pattern fails if and only if the subject ends or the next character is outside the first set |
| LpegVerify.AcceptedTerminates | 3rd/lpeg/lptree.c:952-1063 | matching a pattern that the corrected checks accept terminates on every subject and from every position |
| LpegVerify.VerdictSound | 3rd/lpeg/lptree.c:1002-1042 | the verdict of the corrected left-recursion check covers every way a rule can match the empty string |
| LpegVerify.TerminatesLeft | 3rd/lpeg/lptree.c:1002-1042 | a pattern in left position of a checked rule terminates: by rank of the rule, remaining input, and rules left to pass |
| LpegVerify.SureIsPlain | 3rd/lpeg/lptree.c:1002-1042 | the corrected check is the check of the source on the grammar with its sub-grammars replaced by plain patterns of the same nullability and its look-behinds of width 0 by lookaheads |
| LpegVerify.SureGrammarIsVerified | 3rd/lpeg/lptree.c:1045-1063 | a grammar that the corrected checks accept passes those of the source |
| LpegVerify.VerdictsAgree | 3rd/lpeg/lptree.c:1002-1042 | the verdict of the source and the corrected one are the same at every place the source looks at if and only if it neither forgets the flag at a sub-grammar that must consume input nor passes by a left-recursive look-behind of width 0 |
| LpegVerify.CallsRank | 3rd/lpeg/lptree.c:680-692 | a call leads to no more rules than the caller, and to fewer if it does not lead back: what makes calls inside a look-behind harmless |
| LpegVerify.LeastLenSound | 3rd/lpeg/lptree.c:680-692 | a match consumes at least as much as is counted for it, so a call that is found to stand further on than the start of its rule does |
| LpegVerify.SureJumpsEnd | 3rd/lpeg/lpcode.c:844-861 | what the corrected checks accept can be compiled: its rules do not jump in a circle |
| LpegLimits.ChecksMissThreeCases | 3rd/lpeg/lptree.c:1002-1063 | three grammars pass the checks of the source and have no answer under ordered choice: one loses the nullable flag at a nested grammar, two call their own rule inside a look-behind, of width 0 and of width 1; the corrected checks refuse them |
| LpegLimits.AnalysesLoop | 3rd/lpeg/lpcode.c:294-370 | four grammars pass the checks of the source, and getfirst calls itself on them without end, whatever the room; one of them has no circle of jumping rules and a match that would end |
| LpegLimits.CompilerLoops | 3rd/lpeg/lpcode.c:641-653 | two grammars pass the checks of the source, their analyses end, and their code has a jump to itself, so that `finaltarget` never returns |
| LpegLimits.OrdinaryAccepted | 3rd/lpeg/lptree.c:952-1063 | the corrected checks accept a repetition of a sub-grammar that must consume input, a look-behind that calls a recursive rule not leading back to it, one that calls its own rule two characters further on, and the grammar of arithmetic expressions |
| LpegLimits.ArithmeticAccepted | 3rd/lpeg/lptree.c:1002-1063 | the grammar of sums and products over numbers and parentheses, four rules in a row of left calls, passes the checks of the source and the corrected ones |
| LpegLimits.UnusedIgnored | 3rd/lpeg/lptree.c:1045-1063 | an empty loop in a rule that is not used is not refused |
| LpegRefuse.PassedIff | 3rd/lpeg/lptree.c:1002-1063 | of every grammar with at most 250 rules the corrected check passes all used rules if and only if none of them reaches itself by calls in places where nothing may have been consumed |
| LpegRefuse.RefusedOnlyIfLeft | 3rd/lpeg/lptree.c:1030-1036 | the check of the source refuses a rule of a grammar with at most 250 rules only if some used rule reaches itself by such calls, look-behinds not counted |
| LpegRefuse.LeftRefused | 3rd/lpeg/lptree.c:1002-1042 | a rule that reaches itself by left calls is refused by the corrected check, whatever room the analyses have |
| LpegRefuse.RefusedWay | 3rd/lpeg/lptree.c:1024-1037 | a refusal shows a row of left calls longer than the limit of rules |
| LpegRefuse.EmptySound | 3rd/lpeg/lptree.c:1002-1042 | what is taken to be passed without consuming covers every empty match |
| LpegRefuse.RefusedOnlyIfEmpty | 3rd/lpeg/lptree.c:952-969 | in a grammar without predicates and left recursion a loop is refused only if the body of some loop of the grammar matches the empty string |
| LpegRefuse.TrueMatches | 3rd/lpeg/lptree.c:952-969 | the body itself of a refused loop without predicates matches the empty string, if matching it ends |
| LpegRefuse.EmptyRefused | 3rd/lpeg/lptree.c:952-969 | a loop whose body matches the empty string on any subject is refused |
| LpegRefuse.RefusedForAReason | 3rd/lpeg/lptree.c:1045-1063 | when verifygrammar refuses a grammar without predicates, some used rule reaches itself by left calls or the body of some loop matches the empty string |
| LpegTree.EvalMono | 3rd/lpeg/lpvm.c:149-360 | the ordered-choice meaning does not depend on how much fuel it is given |
| LpegConstruct.OperatorsKeepMeaning | 3rd/lpeg/lptree.c:532-646 | the simplifications of sequence, choice and difference while a pattern is built keep its meaning under every grammar |
| LpegConstruct.CorrectAssociativity | 3rd/lpeg/lptree.c:78-90 | the rotation leaves no first operand of the same kind and keeps the meaning |
| SocketSafety.RunInv | skynet-src/socket_server.c:826-943 | the invariant holds after any interleaving of worker and socket-thread steps |
| SocketSafety.WireHoldsWholePackets | skynet-src/socket_server.c:1794-1872 | in every interleaving the wire is whole accepted packets and at most one part if and only if no packet was torn, and finished packets of one sender and priority keep their order |
| SocketSafety.WholeUnlessTears | skynet-src/socket_server.c:478-509 | a run breaks the framing if and only if it frees a list with a partly sent packet in front and later writes at least one byte directly |
| SocketSafety.TornIffTears | skynet-src/socket_server.c:1814-1847 | over any run, the packets are torn exactly by those two steps in that order |
| SocketSafety.NothingLost | skynet-src/socket_server.c:1004-1074 | every accepted packet is at all times in exactly one place: sent or queued, in the hands of its sender, or dropped |
| SocketSafety.QuietMeansSent | skynet-src/socket_server.c:826-943 | once all threads rest and nothing is queued, each accepted packet was sent whole once, or dropped |
| SocketSafety.DropsOnlyWhenClosed | skynet-src/socket_server.c:1004-1074 | no packet is dropped on a connected socket that is not closing |
| SocketSafety.HighFirst | skynet-src/socket_server.c:843-887 | in every interleaving bytes of the low list are written only while the high list is empty |
| SocketSafety.CounterFits | skynet-src/socket_server.c:1304-1334 | in every interleaving the counter of requests fits 16 bits, a thread with a request waits exactly while it is full, and no packet of low priority is written by a worker |
| SocketSafety.AssertionsHold | skynet-src/socket_server.c:826-915 | the assertions of the sending code hold in every run |
| SocketSafety.DirectWriteTears | skynet-src/socket_server.c:1814-1847 | a direct write keeps packets whole if and only if no close has freed the rest of a cut packet |
| SocketSafety.CutOnlyByFree | skynet-src/socket_server.c:478-509 | a step leaves a packet cut for good if and only if it frees the lists with a partly sent packet in front |
| SocketSafety.WholeWithoutMidPacketClose | skynet-src/socket_server.c:478-509 | no packet is torn in a run that frees no list with a partly sent packet in front |
| SocketSafety.ShutdownTears | skynet-src/socket_server.c:478-509 | a run in which the lists are freed before the lock is taken and a direct write then splits a packet |
| SocketProof.LockedKept | skynet-src/socket_server.c:1814-1847 | every step keeps: the lock is held by exactly the thread that is in a locked region |
| SocketProof.ShapeKept | skynet-src/socket_server.c:856-943 | every step keeps: only list heads are partly sent, and the low list has no partly sent head outside the send loop |
| SocketFrame.FrameKept | skynet-src/socket_server.c:711-741 | every step keeps: until a packet is torn the wire is framed and the cut packet is where its rest will be written next |
| SocketFrame.CountedKept | skynet-src/socket_server.c:945-983 | every step keeps: `wb_size` is the number of bytes in both lists |
| SocketFrame.AnnouncedKept | skynet-src/socket_server.c:1304-1334 | every step keeps: `sending` is at least the number of packets in the pipe or about to be put there |
| SocketFrame.PutTears | skynet-src/socket_server.c:1826-1842 | starting a packet behind a cut one puts more bytes on the wire than whole packets and one part account for |
| SocketFrame.PutLong | skynet-src/socket_server.c:1826-1842 | no packet started later mends a torn wire |
| SocketOrder.KnowsKept | skynet-src/socket_server.c:1794-1829 | every step keeps: a thread that passed both checks knows that none of its own packets is still ahead |
| SocketOrder.MovedServer | skynet-src/socket_server.c:826-943 | steps of the socket thread never reorder packets of one sender and one priority |
| SocketOrder.OrderKept | skynet-src/socket_server.c:1004-1074 | every step keeps the order of packets per sender and priority and accounts for each of them |
| SocketThread.ClosedOncePush | skynet-src/socket_server.c:1104-1152 | an event may be added while at most one SOCKET_CLOSE was raised and no SOCKET_DATA after it |
| SocketThread.TcpSocket.constructor | skynet-src/socket_server.c:554-585 | a fresh socket has raised nothing and is at the start of a run |
| SocketThread.TcpSocket.ForceClose | skynet-src/socket_server.c:478-509 | closing frees both lists, waits for the lock while other threads go on, and ends Invalid with nothing queued |
| SocketThread.TcpSocket.CloseWrite | skynet-src/socket_server.c:688-709 | a failed write ends a half-read socket, otherwise reports an error at most once |
| SocketThread.TcpSocket.SendList | skynet-src/socket_server.c:711-741 | for any answers of the kernel the list is served by exactly the steps of the machine, in order, and the other list is not touched |
| SocketThread.TcpSocket.WriteHead | skynet-src/socket_server.c:715-738 | one write advances the first buffer by what the kernel took, and takes it off when it is done |
| SocketThread.TcpSocket.RaiseUncomplete | skynet-src/socket_server.c:826-841 | the cut head of the low list becomes the only buffer of the high list |
| SocketThread.TcpSocket.Drained | skynet-src/socket_server.c:889-904 | when both lists are empty a pending close is completed, else write events are turned off |
| SocketThread.TcpSocket.SendBuffer0 | skynet-src/socket_server.c:856-915 | for any answers of the kernel the four steps are exactly those of the machine; an error is reported exactly when writing is closed now |
| SocketThread.TcpSocket.SendBuffer | skynet-src/socket_server.c:917-943 | one send attempt, if the lock is free, is exactly the steps of the machine; unless a write fails it drops nothing, and each packet that waited was sent or still waits; a pending close is finished then if and only if nothing is left in the two lists |
| SocketThread.SendAllLeads | skynet-src/socket_server.c:843-915 | the four steps of a send attempt drop nothing unless a write fails, and leave a closing socket invalid if and only if both lists are empty |
| SocketThread.TcpSocket.TakeDirect | skynet-src/socket_server.c:921-931 | the rest of a direct write is put before the high list |
| SocketThread.TcpSocket.SendSocket | skynet-src/socket_server.c:1004-1074 | a packet from the pipe is dropped exactly when the socket takes no data; else it goes to the end of the low list if its priority is low and something waits already, and to the end of the high list if not |
| SocketThread.TcpSocket.TriggerWrite | skynet-src/socket_server.c:985-995 | a live socket waits for write events |
| SocketThread.TcpSocket.CloseSocket | skynet-src/socket_server.c:1125-1152 | SOCKET_CLOSE is raised exactly on the first close of a socket that is not half read; without shutdown, unless writing is closed, no packet that waits in either list or after a direct write is dropped, and the socket is closed at once if and only if none waits and the counter reads 0; with shutdown both lists are given up |
| SocketThread.TcpSocket.ForwardMessage | skynet-src/socket_server.c:1398-1458 | data is raised exactly for bytes read on a socket that is not half read, close exactly on end of file; on a closing socket an end of file drops nothing that waits, and closes it if and only if nothing waits and the counter reads 0 |
| SocketThread.TcpSocket.Eof | skynet-src/socket_server.c:1734-1742 | the end-of-file event closes, raising SOCKET_CLOSE unless half read |
| SocketThread.TcpSocket.Resume | skynet-src/socket_server.c:1171-1208 | an accepted socket becomes connected; a closed or half-read one is not revived |
| SocketThread.TcpSocket.ReportConnect | skynet-src/socket_server.c:1519-1553 | a connecting socket opens or ends with an error |
| SocketThread.TcpSocket.Others | skynet-src/socket_server.c:1794-1872 | worker threads act between two handlers, and the socket stays tied to the machine |
| SchedulerSafety.OneOfFourPlaces | skynet-src/skynet_mq.c:43-75 | in every interleaving a live queue is with its creator, once in the global list, with one worker, or unscheduled and empty |
| SchedulerOrder.ListMoves | skynet-src/skynet_mq.c:43-75 | every step leaves the global list, takes its first queue, which the acting thread gets, or adds one queue at its end that the thread had or that was not scheduled |
| SchedulerOrder.ListKept | skynet-src/skynet_mq.c:43-75 | over every run the queues taken and then those that wait are those that waited and then those added |
| SchedulerOrder.NothingOvertakes | skynet-src/skynet_server.c:339-347 | in every interleaving the queue at place k of the list, counting on with the added ones, is taken by exactly the k-th take from 0, and has moved up by one place for each take before |
| SchedulerOrder.TakenBy | skynet-src/skynet_server.c:339-347 | each take is one step of the run, and its thread gets the queue |
| SchedulerOrder.TurnBound | skynet-src/skynet_server.c:312-322 | a worker of weight w that finds n messages behind the first dispatches at most max(1, n / 2^w) in this turn, and exactly so many when the queue does not run empty, whatever other threads do |
| SchedulerOrder.OneMessage | skynet-src/skynet_server.c:304-322 | a worker without a weight dispatches one message |
| SchedulerSafety.ExclusiveDispatch | skynet-src/skynet_server.c:298-353 | no two threads serve one service, and a served one is initialised, referenced and not freed |
| SchedulerSafety.NoUseAfterFree | skynet-src/skynet_server.c:157-228 | who has a queue, a reference or the deletion of a context finds it not freed, and one thread deletes it; the creator, who goes on using the context without a reference, finds it freed if and only if the handle is retired, nobody has a reference and the deletion is over |
| SchedulerSafety.CreatorTooLate | skynet-src/skynet_server.c:157-167 | a run of two threads in which the creator is about to write `init` into a context that the other thread has deleted |
| SchedulerSafety.EachMessageOnce | skynet-src/skynet_server.c:115-240 | dispatched and then dropped messages are a prefix of the accepted ones in order, all of them once freed; drops start after the release |
| SchedulerSafety.NothingStranded | skynet-src/skynet_mq.c:137-209 | when all threads rest and the global list is empty, every accepted message was dispatched or dropped |
| SchedulerSafety.FreedOnce | skynet-src/skynet_mq.c:230-250 | once a queue is freed no later run changes it |
| SchedulerSafety.Reachable | skynet-src/skynet_server.c:125-182 | every state reached from the start satisfies the invariant of all safety results |
| SchedulerProof.BalancedKept | skynet-src/skynet_mq.c:43-75 | every step keeps: the places of each queue and the references of each context add up |
| SchedulerProof.LifeKept | skynet-src/skynet_server.c:208-240 | every step keeps the life cycle of each service: registered, released, freed |
| MessageQueue.RingPut | skynet-src/skynet_mq.c:189-201 | writing behind the last message of a ring appends it, also across the end of the array |
| MessageQueue.RingPop | skynet-src/skynet_mq.c:137-150 | the head of a ring is the oldest message and the rest follow in order |
| MessageQueue.Mq.constructor | skynet-src/skynet_mq.c:77-96 | a new queue is empty, marked as in the global list and not released |
| MessageQueue.Mq.Length | skynet-src/skynet_mq.c:111-125 | the length from head and tail is the number of messages |
| MessageQueue.Mq.Expand | skynet-src/skynet_mq.c:174-187 | a full ring is copied to twice the size with the same messages in order |
| MessageQueue.Mq.Put | skynet-src/skynet_mq.c:189-201 | a message is appended, growing the ring when it is full |
| MessageQueue.Mq.Pop | skynet-src/skynet_mq.c:137-172 | the oldest message is taken; a length above the threshold is remembered, and the threshold doubled as often as needed; an empty queue leaves the schedule and resets the threshold to 1024 |
| MessageQueue.Mq.Overload | skynet-src/skynet_mq.c:127-135 | the overload is reported once |
| MessageQueue.GlobalQueue.Push | skynet-src/skynet_mq.c:43-56 | a queue is linked behind the last one |
| MessageQueue.GlobalQueue.Pop | skynet-src/skynet_mq.c:58-75 | the first queue is unlinked and keeps its own state |
| MessageQueue.MqPush | skynet-src/skynet_mq.c:189-209 | a push schedules the queue exactly when it was unscheduled |
| MessageQueue.MarkRelease | skynet-src/skynet_mq.c:219-228 | marking for release schedules the queue exactly when it was unscheduled |
| MessageQueue.DropQueue | skynet-src/skynet_mq.c:230-237 | every message left is dropped in order |
| Timer.AddedFiresOnce | skynet-src/skynet_timer.c:88-178 | a timer added for 1 to 2^31-1 ticks is dispatched exactly once, that many ticks later, across the wrap of the clock |
| Timer.FiresOnce | skynet-src/skynet_timer.c:152-178 | a pending timer fires at the tick its expiry names and at no other |
| Timer.Gone | skynet-src/skynet_timer.c:152-163 | a timer that has fired never fires again |
| Timer.FiresInOrder | skynet-src/skynet_timer.c:134-163 | timers that fire at one tick expire then and come in the order of adding |
| Timer.SpotNext | skynet-src/skynet_timer.c:111-132 | while the low byte does not wrap no timer belongs to another list |
| Timer.SpotSpread | skynet-src/skynet_timer.c:111-132 | when it wraps, only nodes of the one list that is spread belong elsewhere |
| Timer.NearIsDue | skynet-src/skynet_timer.c:152-163 | a timer belongs to the near list of the current tick if and only if it expires now |
| Timer.MaskTests | skynet-src/skynet_timer.c:67-86 | two words with the low k bits set are equal if and only if they agree after a shift by k |
| Timer.BlockTests | skynet-src/skynet_timer.c:67-86 | the four mask tests that AddNode makes are the comparisons of blocks by which a place is chosen |
| Timer.Wheel.AddNode | skynet-src/skynet_timer.c:67-86 | a node goes behind the nodes of the list that expiry and clock determine, and no other list changes |
| Timer.Wheel.Add | skynet-src/skynet_timer.c:88-99 | a timer becomes pending with its expiry modulo 2^32 |
| Timer.Wheel.MoveList | skynet-src/skynet_timer.c:101-109 | after spreading a list every pending node is where its expiry belongs |
| Timer.Wheel.Shift | skynet-src/skynet_timer.c:111-132 | one tick advances the clock and leaves every pending node where its expiry belongs |
| Timer.Wheel.Execute | skynet-src/skynet_timer.c:152-163 | exactly the timers due now are dispatched in order, while others may be added |
| Timer.Wheel.Update | skynet-src/skynet_timer.c:165-178 | one update refines one tick of the specification |
| Timer.Wheel.Timeout | skynet-src/skynet_timer.c:204-224 | a wait of zero or less is answered at once and adds nothing |
| DhExchange.Agree | lualib-src/lua-crypt.c:853-888 | both sides derive the same key, 5^(xy) mod P, for all nonzero secrets |
| DhExchange.MulModP | lualib-src/lua-crypt.c:795-815 | the product modulo P for every a <= P and every 64-bit b, in wrapping arithmetic |
| DhExchange.WrapFits | lualib-src/lua-crypt.c:795-815 | none of the operations of the loop goes wrong by wrapping |
| DhExchange.PowModP | lualib-src/lua-crypt.c:817-828 | congruent to the power; equal to it modulo P except for exponent 1 and base P |
| DhExchange.PowerModP | lualib-src/lua-crypt.c:831-836 | congruent to the power for every 64-bit base and nonzero exponent |
| DhExchange.Exchange | lualib-src/lua-crypt.c:870-888 | the exchanged key, or an error for 0 |
| DhExchange.Secret | lualib-src/lua-crypt.c:853-866 | the shared key, or an error for a zero argument |
| DhExchange.KeyNotZero | lualib-src/lua-crypt.c:853-888 | an exchanged key is never 0, so it is never refused |
| Des.RoundTrip | lualib-src/lua-crypt.c:461-517 | decryption gives back every encrypted text, for every key of eight bytes and both padding modes |
| Des.FpUndoesIp | lualib-src/lua-crypt.c:208-230 | the final permutation and the initial one undo each other |
| Des.RoundsBack | lualib-src/lua-crypt.c:234-247 | the rounds with the subkey pairs reversed undo the rounds, whatever the boxes hold |
| Des.BlockBack | lualib-src/lua-crypt.c:320-342 | decrypting an encrypted block gives it back |
| Des.BlocksBack | lualib-src/lua-crypt.c:461-517 | and so for any number of blocks |
| Des.CryptHalves | lualib-src/lua-crypt.c:325-340 | the unrolled loop is the rounds followed by the exchange of halves |
| Des.CryptInto | lualib-src/lua-crypt.c:320-342 | one block is written in place and nothing around it |
| DesStandard.IpIs | lualib-src/lua-crypt.c:208-218 | DES_IP is the table IP of FIPS 46-3, bit by bit, with both halves rotated left by one |
| DesStandard.FpIs | lualib-src/lua-crypt.c:221-231 | DES_FP rotates the halves back and is the table of the inverse permutation |
| DesStandard.SeenIs | lualib-src/lua-crypt.c:234-247 | each S-box sees the six bits that the table E selects for it, with its part of the key |
| DesStandard.FIs | lualib-src/lua-crypt.c:234-247 | a round adds the cipher function of the standard |
| DesStandard.RoundsAre | lualib-src/lua-crypt.c:330-333 | the rounds are those of the standard on the two halves |
| DesStandard.CryptIs | lualib-src/lua-crypt.c:318-342 | a block is enciphered as the standard says: IP, sixteen rounds, exchange of the halves, inverse IP |
| DesStandard.GetWordIs | lualib-src/lua-crypt.c:190-196 | the first byte of a word is its most significant |
| DesStandard.BlockIs | lualib-src/lua-crypt.c:318-342 | the eight bytes of a block, highest first, are enciphered as the standard says |
| DesStandard.EncodedIs | lualib-src/lua-crypt.c:461-485 | each block of the encrypted text is the standard cipher of the block of the padded text at its place |
| Des.CryptBlocks | lualib-src/lua-crypt.c:475-478 | the loop crypts all whole blocks |
| Des.AddPadding | lualib-src/lua-crypt.c:379-406 | the block is filled with the padding of the mode |
| Des.Tail | lualib-src/lua-crypt.c:436-443 | the last block of a text is its rest and the padding |
| Des.PaddedEnds | lualib-src/lua-crypt.c:379-406 | a padded text ends in a padding of the mode of the added length |
| Des.EndsOnce | lualib-src/lua-crypt.c:385-418 | a text ends in at most one padding |
| Des.RemoveIso | lualib-src/lua-crypt.c:385-400 | finds the padding if and only if there is one |
| Des.RemovePkcs | lualib-src/lua-crypt.c:408-418 | finds the padding if and only if there is one |
| Des.Encode | lualib-src/lua-crypt.c:461-485 | the encrypted padded text, or an error for a key of the wrong length |
| Des.Decode | lualib-src/lua-crypt.c:487-517 | the text without its padding exactly when there is one, with each error of the source |
| Des.ReverseKeys | lualib-src/lua-crypt.c:493-496 | the decryption keys are the subkey pairs in reverse |
| ShareData.CountSize | lualib-src/lua-sharedata.c:67-89 | the size of the hash is the number of entries that do not go to the array |
| ShareData.Table.constructor | lualib-src/lua-sharedata.c:277-326 | both passes build a table in which every entry is found by its chain, without failing |
| ShareData.Table.FillNoColliding | lualib-src/lua-sharedata.c:212-235 | the first pass puts each entry whose main position is free there, and array entries into the array |
| ShareData.Table.FillColliding | lualib-src/lua-sharedata.c:237-273 | the second pass chains every other entry behind the head of its position |
| ShareData.Table.FreeSlot | lualib-src/lua-sharedata.c:249-262 | a free slot is always found, so the assertion of the source cannot fail |
| ShareData.Table.BuiltFaithful | lualib-src/lua-sharedata.c:277-326 | the built table holds its source, keys cut to 32 bits, whenever cutting makes no two keys equal and no hash key an array index |
| ShareData.Table.NoneFreeExactly | lualib-src/lua-sharedata.c:67-89 | conversion fills every slot that was counted if and only if it keeps every counted entry: none goes to the array, and none finds its cut key at its main position already |
| ShareData.Table.LookupsDefined | lualib-src/lua-sharedata.c:502-531 | every lookup starts at a slot that was written if and only if no slot stayed free |
| ShareData.SlotNeverFilled | lualib-src/lua-sharedata.c:67-89 | the keys 1 and 2^32+1 leave a counted slot that is never filled |
| ShareData.KeptThoughMixed | lualib-src/lua-sharedata.c:237-273 | the keys 3, 0 and 2^32 fill all slots although two of them become equal |
| ShareData.PutBehind | lualib-src/lua-sharedata.c:237-273 | chaining a node behind the head keeps all chains |
| ShareData.Table.LookupKey | lualib-src/lua-sharedata.c:502-531 | in a table without free slots a key is found if and only if a slot holds it |
| ShareData.Table.ShortCut | lualib-src/lua-sharedata.c:502-531 | stopping at a slot without collisions misses no key |
| ShareData.Table.IndexConf | lualib-src/lua-sharedata.c:533-567 | there is an answer if and only if some key of the source is cut to what the asked key is cut to, and it belongs to such a key; where cutting mixes nothing up every key of the source, however large, gives its value |
| ShareData.Table.NextKey | lualib-src/lua-sharedata.c:590-647 | the first key after nil, else the successor in iteration order |
| ShareData.Table.Iterate | lualib-src/lua-sharedata.c:590-647 | iterating from nil ends after visiting the order |
| ShareData.Table.OrderIsExact | lualib-src/lua-sharedata.c:590-647 | the order has each key of the source table, cut to 32 bits, once and no other |
| ShareData.Table.VisitsAllIffFits | lualib-src/lua-sharedata.c:590-647 | for every table whose keys stay apart when cut, iteration reaches every source key if and only if all integer keys fit 32 bits |
| Seri.RoundTrip | lualib-src/lua-seri.c:555-612 | unpacking what was packed returns the values, exactly for those that can be packed |
| Seri.WriteBlock.Push | lualib-src/lua-seri.c:66-85 | the chain of 128-byte blocks behaves like appending bytes |
| Seri.WriteBlock.Integer | lualib-src/lua-seri.c:142-174 | an integer is written in the shortest of its forms |
| Seri.WriteBlock.String | lualib-src/lua-seri.c:190-213 | a string is written short, or with a length of 2 or 4 bytes |
| Seri.WriteBlock.PackOne | lualib-src/lua-seri.c:296-340 | any value is written as the format says, or refused exactly when it cannot be packed (depth, type, length) |
| Seri.WriteBlock.PackTable | lualib-src/lua-seri.c:217-294 | array part, other pairs, nil |
| Seri.Pack | lualib-src/lua-seri.c:534-612 | a list of values is packed, into one buffer of bytes that stand for it in the format, if and only if nothing in it is nested deeper than 32 tables, too long, or of another type |
| Seri.ReadBlock.Read | lualib-src/lua-seri.c:118-128 | exactly the next bytes, or nothing when too few are left |
| Seri.ReadBlock.Integer | lualib-src/lua-seri.c:359-400 | reads what the format says and leaves the rest |
| Seri.ReadBlock.UnpackArray | lualib-src/lua-seri.c:451-455 | reads the array part of a table |
| Seri.ReadBlock.UnpackPairs | lualib-src/lua-seri.c:456-464 | reads pairs up to a nil key |
| Seri.ReadBlock.PushValue | lualib-src/lua-seri.c:467-521 | reads the value after a type byte, or fails exactly when the format is violated |
| Seri.ReadBlock.UnpackOne | lualib-src/lua-seri.c:523-532 | reads one value and leaves the rest |
| Seri.Unpack | lualib-src/lua-seri.c:555-597 | reads values until the buffer is used up; every buffer that stands for a list of values in the format gives this list |
| SeriSpec.ReadValue | lualib-src/lua-seri.c:16-33 | bytes that stand for a value, in any of the forms of the format, are read as this value in front of anything |
| SeriSpec.ReadList | lualib-src/lua-seri.c:555-597 | so is a whole buffer |
| SeriSpec.WrittenValue | lualib-src/lua-seri.c:16-33 | what is written for a value stands for it in the format |
| SeriSpec.WrittenShortest | lualib-src/lua-seri.c:143-173 | no form of an integer is shorter than the one written |
| SeriSpec.WrittenString | lualib-src/lua-seri.c:191-213 | a string is written in the shortest of its forms |
| SeriSpec.FitsIff | lualib-src/lua-seri.c:297-345 | what can be packed is what is nested no deeper than 32 tables, fits the C type int and has a type of the format |
| SeriFormat.OneBack | lualib-src/lua-seri.c:467-532 | reading one written value gives it back and leaves what follows |
| SeriFormat.IntBack | lualib-src/lua-seri.c:142-174 | every 64-bit integer is read back |
| SeriFormat.StringBack | lualib-src/lua-seri.c:190-213 | every string is read back |
| SeriFormat.ListBack | lualib-src/lua-seri.c:555-597 | reading a list of written values gives the list back |
| BsonBack.RoundTrip | lualib-src/lua-bson.c:600-740 | decoding an encoded table gives it back if and only if its keys have no zero bytes and its tagged strings are in the form that reading produces (document grammar of the BSON specification 1.1) |
| BsonBack.ValueBack | lualib-src/lua-bson.c:323-431 | every sound value, nested to any depth, is read back behind its type byte and leaves what follows |
| BsonBack.TaggedBack | lualib-src/lua-bson.c:339-408 | binary, object id, date, timestamp, regex and the raw types are read back as the same tagged string |
| BsonBack.TaggedOnly | lualib-src/lua-bson.c:339-408 | a tagged string that comes back unchanged was in that form |
| BsonBack.FieldsBack | lualib-src/lua-bson.c:443-488 | encoded fields in front of any others are read back in order, with array keys 1, 2 and so on |
| BsonBack.KeyNumber | lualib-src/lua-bson.c:433-441 | the decimal key of an array element is read back as its index |
| Bson.EncodeTable | lualib-src/lua-bson.c:948-960 | a table is written as a document of the grammar of BSON 1.1 with the values of the table; values that fit are refused if and only if more than 128 tables are inside each other |
| Bson.Writer.Reserve | lualib-src/lua-bson.c:79-93 | growing keeps the bytes and makes the room asked for |
| Bson.Writer.WriteLength | lualib-src/lua-bson.c:194-201 | four bytes at the reserved offset change, nothing else |
| Bson.Writer.WriteString | lualib-src/lua-bson.c:232-249 | a string is copied with a zero byte if and only if it is a run of UTF-8 characters |
| Bson.Writer.AppendOne | lualib-src/lua-bson.c:323-431 | a field of any type is appended as one element of the grammar, with its type byte, its key and a payload that stands for the value |
| Bson.Writer.AppendTagged | lualib-src/lua-bson.c:339-408 | a tagged string is written as its type, or refused on a wrong length or type |
| Bson.Writer.AppendTable | lualib-src/lua-bson.c:527-553 | a table is written as array or document, up to the depth limit |
| Bson.Writer.Pack | lualib-src/lua-bson.c:443-488 | the length written last equals the size of the subtree |
| Bson.Reader.ReadCString | lualib-src/lua-bson.c:160-176 | the bytes up to the first zero, or an error when there is none |
| Bson.Reader.ReadScalar | lualib-src/lua-bson.c:625-731 | each scalar payload of the grammar is read as the value it stands for, and no further |
| Bson.Reader.UnpackDict | lualib-src/lua-bson.c:600-740 | a document of the stated length with a zero at its end is read field by field |
| Bson.DecodeDoc | lualib-src/lua-bson.c:913-926 | every document of the grammar of BSON 1.1 is decoded to the values it stands for |
| BsonSpec.DecodesEvery | lualib-src/lua-bson.c:913-926 | every document that derives from the grammar, with its type bytes, sizes and lengths written out, decodes to its values |
| BsonSpec.ReadPayload | lualib-src/lua-bson.c:625-731 | every payload of the grammar, scalar or document, is read as the value it stands for in front of anything |
| BsonSpec.ReadTagged | lualib-src/lua-bson.c:625-731 | each payload of a type without a Lua value is read as a tagged string |
| BsonSpec.EncodesOnly | lualib-src/lua-bson.c:948-960 | every document written from canonical values derives from the grammar with these values |
| BsonSpec.WrittenValue | lualib-src/lua-bson.c:323-431 | the payload written for a value stands for it under the type byte written |
| BsonSpec.EncodedIff | lualib-src/lua-bson.c:528-560 | a table of text, canonical tagged strings and numbers is encoded if and only if at most 128 tables are inside each other |
| BsonIndex.AssignTable | lualib-src/lua-bson.c:742-911 | encoding, indexing, any sequence of assignments and decoding equals updating the table: refused assignments change nothing, others change one value |
| BsonIndex.ReplaceIs | lualib-src/lua-bson.c:863-911 | an assignment is refused exactly when no scalar field has the key or the value does not suit its type, and the index stays right |
| BsonIndex.UpdateEntries | lualib-src/lua-bson.c:863-911 | one update changes the value of one field, or nothing |
| BsonIndex.RenewedIff | lualib-src/lua-bson.c:878-909 | the field then holds the given value unless an integer is cut to 32 bits or a non-boolean becomes true |
| BsonIndex.IdBack | lualib-src/lua-bson.c:813-818 | type and offset are found again in the packed id, the offset if and only if it is below 64 MB |
| BsonIndex.DocIndex | lualib-src/lua-bson.c:742-825 | indexing a well-formed document records type and place of every scalar field |
| Bson.IndexFields | lualib-src/lua-bson.c:742-825 | the indexing loop is the specified walk |
| Bson.ReplaceField | lualib-src/lua-bson.c:863-911 | the payload bytes of one field are overwritten in place, nothing else |
| Utf8.Utf8Copy | lualib-src/lua-bson.c:205-230 | the bit loop accepts exactly the character table of section 4 of RFC 3629 (surrogates included) and returns its length |
| Utf8.TextIff | lualib-src/lua-bson.c:232-249 | a string passes character by character if and only if it is the encoding of some list of code points (section 3 of RFC 3629, surrogates included) |
| LineInfo.GetFuncLine | 3rd/lua/ldebug.c:83-95 | the line that was recorded last for the instruction |
| LineInfo.GetBaseLine | 3rd/lua/ldebug.c:60-75 | an entry at or before the instruction with no absolute mark in between, from the estimate on |
| LineInfo.EstimateIsLow | 3rd/lua/ldebug.c:60-75 | the estimate pc/128-1 is an entry at or before the instruction |
| LineInfo.ChangedLine | 3rd/lua/ldebug.c:800-818 | compares the two recorded lines, whichever way it takes |
| LineInfo.FuncState.constructor | 3rd/lua/lcode.c:328-344 | an empty table records nothing, with the line of the definition before it |
| LineInfo.FuncState.SaveLineInfo | 3rd/lua/lcode.c:328-344 | the line of the last instruction is recorded, by difference or absolutely |
| LineInfo.FuncState.RemoveLastLineInfo | 3rd/lua/lcode.c:352-364 | the last record is undone and the next one can be made |
| LineInfo.FuncState.Code | 3rd/lua/lcode.c:381-389 | emitting appends one line |
| LineInfo.FuncState.FixLine | 3rd/lua/lcode.c:1726-1729 | the line of the last instruction is replaced |
| LineInfo.FuncState.Replace | 3rd/lua/lcode.c:371-374 | removing the last instruction and emitting another replaces its line |
| Framing.AnyCut | lualib-src/lua-netpack.c:227-307 | a reader that keeps the unparsed rest emits exactly the frames of a stream in order, however it is cut |
| Framing.NetworkOrder | lualib-src/lua-netpack.c:183-186 | lengths of two, three and four bytes have the most significant byte first |
| Framing.ParseAppend | lualib-src/lua-netpack.c:227-307 | parsing may stop after any byte and go on with what is left |
| NetPack.Queue.FilterData | lualib-src/lua-netpack.c:227-307 | a chunk yields the frames that parsing the kept bytes and the chunk gives, keeps exactly the rest, and leaves other descriptors alone |
| NetPack.Queue.FindUncomplete | lualib-src/lua-netpack.c:92-114 | the record of a descriptor leaves its hash chain |
| NetPack.Queue.SaveUncomplete | lualib-src/lua-netpack.c:169-180 | the record is found again under its descriptor, and no other changes |
| NetPack.Queue.PushMore | lualib-src/lua-netpack.c:188-215 | all whole frames are queued and the rest is kept |
| NetPack.Queue.Resume | lualib-src/lua-netpack.c:236-280 | a chunk continues a record, also one that holds only the first length byte |
| NetPack.Queue.Start | lualib-src/lua-netpack.c:281-305 | a chunk without record starts a frame |
| DataBuffer.Buffer.Push | service-src/databuffer.h:91-123 | a block is appended |
| DataBuffer.Buffer.Read | service-src/databuffer.h:64-89 | the next bytes are copied across blocks and consumed |
| DataBuffer.Buffer.ReadHeader | service-src/databuffer.h:125-144 | the size of the next frame once all of it is here, else nothing is lost |
| DataBuffer.Buffer.Dispatch | service-src/service_gate.c:194-214 | a chunk yields the specified frames and leaves the specified rest, or closes on a frame of 16 MB or more |
| DataBuffer.AnyCut | service-src/databuffer.h:64-144 | however a stream is cut its frames come out in order without the empty ones; all of them if and only if none is empty |
| DataBuffer.TooLongCloses | service-src/service_gate.c:195-215 | a complete frame of 16 MB or more closes the connection |
| Harbor.Slave.PushSocketData | service-src/service_harbor.c:414-506 | a chunk takes the connection through handshake, header and content as specified; queued messages go out at the handshake |
| Harbor.Slave.Receive | service-src/service_harbor.c:449-502 | the loop over header and content yields the specified frames |
| Harbor.Slave.SendHandle | service-src/service_harbor.c:522-559 | a message waits for the handshake, is sent after it, and is refused on a connection that is down |
| Harbor.Slave.DispatchQueue | service-src/service_harbor.c:395-412 | waiting messages are sent in order |
| Harbor.FeedAppend | service-src/service_harbor.c:414-506 | a connection may be fed in parts of any size |
| Harbor.AnyCut | service-src/service_harbor.c:414-506 | however the bytes are cut, the frames come out in order; all of them if and only if the last is not empty |
| HandleTable.Storage.Register | skynet-src/skynet_handle.c:34-71 | a nonzero handle of this harbor, for the first free slot in the order of the counter, names the context and no live one; it was never given before while the counter has not wrapped; it stops if and only if the counter wraps inside the scan and only slot 0 is free |
| HandleTable.WearOut | skynet-src/skynet_handle.c:34-71 | registering and retiring alone lead to a table in which registration stops: three services that live on and one that comes and goes |
| HandleTable.Covers | skynet-src/skynet_handle.c:42-58 | a scan tries every slot but 0, and 0 unless the counter wraps inside it |
| HandleTable.MissesZero | skynet-src/skynet_handle.c:44-47 | a scan in which the counter wraps never tries slot 0 |
| HandleTable.Storage.Scan | skynet-src/skynet_handle.c:42-58 | the first handle in the order of the counter whose slot is free, all tried before being taken; or all tried slots are taken |
| HandleTable.Rehash | skynet-src/skynet_handle.c:59-66 | doubling never collides: each entry gets the slot of its handle |
| HandleTable.Halves | skynet-src/skynet_handle.c:62-66 | a handle keeps its slot or moves by the old size |
| HandleTable.Storage.Double | skynet-src/skynet_handle.c:59-69 | after doubling all contexts are found and a slot other than 0 is free |
| HandleTable.Storage.Put | skynet-src/skynet_handle.c:48-57 | the handle is live, all others stay, and the counter passes it |
| HandleTable.Storage.Grab | skynet-src/skynet_handle.c:136-153 | the context of a handle if and only if it is registered |
| HandleTable.Storage.Retire | skynet-src/skynet_handle.c:73-110 | exactly that handle and all its names are gone, and it tells whether the handle was live |
| HandleTable.Storage.RetireAll | skynet-src/skynet_handle.c:112-134 | ends with no context and no name of one |
| HandleTable.NameTable.FindName | skynet-src/skynet_handle.c:155-183 | the handle of the name, 0 if there is none |
| HandleTable.NameTable.Search | skynet-src/skynet_handle.c:155-183 | binary search finds the name or the place where it belongs |
| HandleTable.NameTable.InsertBefore | skynet-src/skynet_handle.c:185-209 | the entry is inserted at its place, also when the array grows |
| HandleTable.NameTable.NameHandle | skynet-src/skynet_handle.c:211-244 | a new name is added to the sorted array, a taken one is refused |
| HandleTable.NameTable.Compact | skynet-src/skynet_handle.c:86-97 | the entries of other handles move to the front in order |
| HandleTable.WithoutSorted | skynet-src/skynet_handle.c:86-97 | what is left after retiring is sorted |
| SocketBuffer.Buffer.Push | lualib-src/lua-socket.c:103-154 | a block from the pool is linked behind the last one and the bytes are appended |
| SocketBuffer.Buffer.NewPool | lualib-src/lua-socket.c:57-73 | a chain of new nodes |
| SocketBuffer.Buffer.ReturnFreeNode | lualib-src/lua-socket.c:156-173 | the first node goes back to the pool and the lists stay apart |
| SocketBuffer.Buffer.PopString | lualib-src/lua-socket.c:175-215 | the next bytes go, all but the skipped last ones are returned, across blocks |
| SocketBuffer.Buffer.PopBuffer | lualib-src/lua-socket.c:241-258 | reads by length, or nothing when there are fewer bytes |
| SocketBuffer.Buffer.CheckSep | lualib-src/lua-socket.c:308-325 | compares a separator that may lie across any number of blocks |
| SocketBuffer.Buffer.Find | lualib-src/lua-socket.c:343-368 | the first place of the separator in the whole stream, or none if it is absent |
| SocketBuffer.Buffer.ReadLine | lualib-src/lua-socket.c:332-369 | the line before the first separator, wherever the blocks end; a check leaves the buffer as it is |

## Left out

- LPeg captures, runtime captures, the stack-size limit and the Lua side of pattern construction: they need the Lua stack. The capture lists of the machine are not modelled.
- LpegAnalysis: `d` is the depth of calls that the C stack has room for; only `fixedlen` stops by itself, by marking the calls on its way, and the marks are kept by rule (LpegDepth.FixedLenMarks). The checks use the answers of the analyses at some depth; how deep checking itself goes is not followed.
- LpegVerify.AcceptedTerminates: one direction; a rule may recurse in left position behind a pattern that no subject matches and so always end, and whether a subject matches is not decidable for grammars. `LpegLimits` shows what goes wrong where the corrected checks refuse and the source does not.
- LpegRefuse.RefusedForAReason: for patterns without predicates and look-behinds; a predicate counts as empty, also where it never succeeds. The searches for empty matches end with the room `d`, and matching earlier built sub-grammars ends on the empty subject (LpegRefuse.AcceptedSubsEnd).
- LpegVm.Match: takes a run that halts as given; LpegCompiler.CompileAndMatch supplies it for accepted patterns, and LpegCompiler.CompileAndRun wherever a match ends.
- UDP, listening sockets, user-object buffers, failures of the poller, reuse of socket slots and the warning size in `socket_server.c`. No claim that a close after a wake-up request completes, because `sending` is only a lower bound.
- SocketSafety.DirectWriteTears: about one write; runs are covered by SocketSafety.WholeUnlessTears.
- SocketThread: handlers run as whole methods of the socket thread; steps of workers inside a handler are taken while it waits for the lock.
- Profiling, the endless-loop monitor, `skynet_context_dispatchall`, and the message that `skynet_error` sends in `skynet_server.c`. Messages are numbers.
- Scheduler.FromIdle: registering the handle and `skynet_mq_create` are one step, so a sender that grabs the new handle before `ctx->queue` is set is not covered.
- MessageQueue and Scheduler: the ring and the global list are proved as objects, the interleavings on their contents; a queue freed in the state machine is not freed memory.
- `skynet_updatetime`: how the wall clock is turned into ticks. Timers with a wait of 2^31 or more.
- The S-boxes and the key schedule of DES are parameters, as the proofs hold for any; the permutations and the selection of bits are those of the standard. Base64, hashes, hmac and md5.
- Des.Decode: says which padded texts are accepted; that no other key decrypts them is not a property of the code.
- ShareData: conversion of nested tables and of the string table, reference counts and the dirty flag; the string hash is a parameter, so collisions are arbitrary. What a lookup does with a slot that was never written is not modelled: lookups ask for tables without one.
- ShareData.Table.NextKey: for tables whose keys stay apart when cut; iteration over others is not covered.
- Seri: tables are their array part and the other pairs as `lua_next` or `__pairs` gives them; lengths that do not fit the C type int, and streams with lengths of 2^31 or more.
- Bson: tables are the pairs of `lua_next`. A table is an array when its pairs are exactly 1 to n in order; what `is_rawarray` answers for a mixed table whose last hash slot holds the key n, `__len` and `__pairs` are not modelled, nor ordered encoding and embedded encoded documents.
- Bson.Reader.UnpackDict: a negative length in a malformed document is an error in the model; the source moves its read pointer back.
- BsonSpec.EncodesOnly: for tagged strings that hold a payload of their type; a tagged string of raw code, a pointer or a symbol is copied unread by the source. Keys and strings of the grammar are bytes; that they are UTF-8 is the check in Utf8.
- BsonFormat: documents of 2^31 bytes or more; a tagged regex without the dividing zero, which the source reads beyond its end.
- BsonIndex.NewPay: a real field takes a real; the conversion of an integer argument to double is Lua's.
- Lua's jump lists and everything else in `lcode.c` and `ldebug.c`; that `previousline` starts as the line of the definition is the constructor.
- NetPack and Harbor: rings and hash tables of packets are sequences (the ring itself is proved in MessageQueue); the header of a remote message, global names and their queues.
- DataBuffer.Buffer.Dispatch: the agent or watchdog that takes a frame exists; pooling of list nodes is not modelled.
- HandleTable: handle and context number are what a slot holds; `handle & (size - 1)` is the remainder, as the size is a power of two. Names of handles that were retired before they were named stay, as in the source.
- SocketBuffer.Buffer.Push: blocks are not empty; the source would count an empty block as one byte while it looks for a separator. `lua_State` tables are fields.
- `lua-cluster.c`, `md5lib.c`, multicast, mongo, sproto and the scripts: plumbing, or easy members.

# Enkaku: a verified model of its hard core

Enkaku drives a farm of Android devices over adb. This project models the parts of it
that hold real invariants, in Dafny, and proves what those parts promise. Each source
file's model has the form of that file: objects whose methods update fields are classes,
loops are loops, and each such method is proved against a specification function; the
theorems are about those functions, over every input or every run.

`dafny verify dfyconfig.toml` checks the whole project.

## The parts

- **The expression language** (`expr_*.dfy`). The tokeniser, the parser object and its
  limits are proved to compute a grammar (`ExprGrammar`); a printer, which exists only as
  specification, spells a tree with no parenthesis it can do without, and parsing its
  spelling gives the tree back within the same limits. The parser is proved to accept
  exactly a declarative grammar of token ranges (`ExprLanguage`), out of which follow
  precedence and association (`ExprPrecedence`). Evaluation is given three times: a
  meaning without fuel (`ExprSemantics`), which says what every run costs; rules from which
  outcomes are derived, proved exact (`ExprRules`), over operations pinned by laws
  (`ExprLaws`); and the metered evaluator (`ExprEval`), proved to be that meaning cut off at
  its fuel. Out of
  this follow that more fuel never changes an answer, the cost of call-free trees, the
  reachability of the evaluator's error branches and the replay of draws. `toScopeValue` is
  modelled on object graphs of any shape, and the comparisons of gates against `==`.
- **The adb scheduler** (`adb_semaphore.dfy`, `adb_queue*.dfy`). Every synchronous section
  between two awaits is one step, so every interleaving is a sequence of steps. The
  objects' methods are proved to be those steps.
- **The byte layer** (`adb_bytes.dfy`, `adb_reads.dfy`, `adb_framing.dfy`, `adb_status.dfy`,
  `adb_shell_frames.dfy`, `adb_stream.dfy`, `adb_exec_stream.dfy`, `adb_write.dfy`). The
  byte queue, requests and length-prefixed blocks, statuses, framed shell packets, the PID
  line of a stream, partial writes: decoders whose answer does not depend on chunk
  boundaries, joined end to end from the first byte of a connection to what `onData` is
  given. The streaming lane's counters and a stream's endings are here too.
- **The device tracker** (`adb_tracker.dfy`): snapshots, events and the grace window.
- **The workflow checker and upgrade** (`workflow.dfy`, `workflow_upgrade.dfy`): what a
  run of each generation of documents does, and when the two do the same.
- **The shutdown** (`shutdown.dfy`), the **soak report** (`soak.dfy`) and **shell
  quoting** (`shell_quote.dfy`), the last against a reader of words after sections 2.2.1,
  2.2.2 and 2.3 of the POSIX.1-2017 Shell Command Language.

## Where the code does not do what is said of it

Each of these is proved with the exact condition, or with an example.

- A released semaphore slot is promised to a waiter that counts itself later. An acquire
  in between can put the slots held above the cap (`AdbSemaphore.OvershootExample`). Over
  a whole run the slots held stay within the bound, whatever wake-ups are taken when, if
  and only if every acquire and every resize finds room beside the slots promised
  (`CapHoldsIff`, `EnterOvershootsIff`, `ResizeOvershootsIff`); with every wake-up taken
  first each of them does (`HandOffHasRoom`).
- `execStream` guards its handshake and not the delivery of what the handshake left
  buffered. When `onData` throws there, the call is rejected with its lane slot kept, and
  the slot goes back if and only if a deadline or an abort comes later
  (`AdbStream.ThrownDeliveryIff`); with neither set it is lost (`SlotLostExample`).
- The tracker replaces its mirror before it tells the listeners. What they heard gives the
  mirror at every point of a run if and only if none of them ever threw with an event
  still to be heard (`AdbTracker.ListenersInStepIff`).
- A write that is parked when its connection goes is settled if and only if a close event
  wakes it and it finds the socket closed on this side; after a close by the peer alone it
  stays parked for ever (`AdbSocketWrite.WriteAfterCloseIff`).
- A call of the daemon that throws can leave the process running for good. It can still
  exit if and only if neither the release nor the stop threw, nor the cancellation that the
  second signal asks for, nor a look of the settle loop (`Shutdown.CanExitIff`). After a
  quiesce that threw, or a throw out of the drain loop, nothing happens until another signal
  comes (`OnlyASignalHelps`).
- "Paused and idle" does not promise that nothing starts before a resume: it does exactly
  when no queued job is already past the gate (`AdbQueueRuns.IdleIsQuietIff`).
- The upgrade of v1 workflow documents is meant to change nothing
  (`scripts/check-workflow-upgrade.ts:3-4`). A script whose failure is to end the run as a
  success loses that when no gate makes the upgrade add a succeeding `finish`; these
  documents, and no others that upgrade, run differently, and the checker reports exactly
  them (`WorkflowUpgrade.UpgradeIsExact`, `LostSuccessExample`). Valid v1 documents within
  one to three nodes of the size limit may not upgrade at all (`UpgradesIff`).
- `encodeRequest` is read back exactly when its payload has at most 0xFFFF bytes
  (`AdbFraming.RequestRoundTripIff`).
- `gateDeepEqual` answers false below its depth limit, even for a value against its own
  copy, and a scope can hold a value that deep (`ExprGate.DeepestIsNotGateEqual`).
- The comment at `packages/expr/src/functions.ts:349-355` says that `rand()` returns one
  value within a step; the code draws anew on every call, as the comment on `rand` itself
  says. The model follows the code.

## Model

| member | source | states |
|---|---|---|
| ExprRoundTrip.ReparseIsIdentity | packages/expr/src/parse.ts:154-268 | Whatever token list the parser accepts, the minimal spelling of the tree is accepted too: same tree, same node count, within the same limits, and no longer than what was accepted |
| ExprRoundTrip.SpellingParses | packages/expr/src/parse.ts:154-268 | Every well-formed tree of at most 200 nodes and 20 levels is what its own spelling parses to |
| ExprRoundTrip.AcceptedTrees | packages/expr/src/parse.ts:145-161 | A tree is the parse of some token list if and only if it is well-formed and within both limits: the limits are limits of trees, not of spellings |
| ExprRoundTrip.SpellingInjective | packages/expr/src/parse.ts:163-231 | Two acceptable trees with one spelling are one tree |
| ExprRoundTrip.ParsePrinted | packages/expr/src/parse.ts:163-231 | At every grammar level, a printed phrase followed by a token that cannot continue it is read back exactly, from any position, count and depth |
| ExprLanguage.ProgramIff | packages/expr/src/parse.ts:154-268 | The parser accepts a language given by token ranges, in the tokens themselves and apart from parser and printer, no less and no more, and reads every spelling as the tree it spells: which sub-phrase is which child, every operator by the token that names it, parentheses anywhere, one level of depth for each nesting |
| ExprLanguage.ReadIsSpelled | packages/expr/src/parse.ts:163-268 | What a parse at any level read is a spelling of its tree at that level |
| ExprLanguage.SpelledIsRead | packages/expr/src/parse.ts:163-268 | A spelled phrase, however parenthesised, that the next token does not continue is read as its tree, from any position, count and depth within the limits |
| ExprPrecedence.PrecedenceIff | packages/expr/src/parse.ts:180-198 | A program without a bare ternary is read as the tree of its operands, prefix forms or tighter, with any binary operators between them: split at the rightmost operator of the loosest of the six classes, and each part again |
| ExprPrecedence.JoinedIsRead | packages/expr/src/parse.ts:180-198 | Operands joined by operators are read as that tree wherever they stand |
| ExprPrecedence.RootIsLoosest | packages/expr/src/parse.ts:180-198 | The root of that tree is the operator named by the rightmost token of the loosest class present, and its two sides are the trees of the two parts |
| ExprPrecedence.ThreeOperands | packages/expr/src/parse.ts:192-198 | Of three operands the tighter operator holds the middle one, and the left operator if they are of one class |
| ExprGrammar.Parse | packages/expr/src/parse.ts:163-208 | A successful parse at any level: the counter grew by the size of the tree and is at most 200, the tree names only table functions and has no string-literal index, it is no deeper than the limit, and no spelling of it is longer than what was read |
| ExprGrammar.ChainLoop | packages/expr/src/parse.ts:180-198 | The same of a left-associative chain, as what the loop adds to the operand it holds |
| ExprGrammar.PostfixLoop | packages/expr/src/parse.ts:210-231 | The same of member and index suffixes |
| ExprGrammar.Primary | packages/expr/src/parse.ts:233-268 | The same of literals, roots, calls and parentheses |
| ExprGrammar.Arguments | packages/expr/src/parse.ts:249-254 | The same of an argument list |
| ExprGrammar.Program | packages/expr/src/parse.ts:154-161 | A parsed program ends at the end token and its node counter is the size of its tree |
| ExprParser.Parser.MakeNode | packages/expr/src/parse.ts:145-149 | Counts one node, and refuses the 201st |
| ExprParser.Parser.ParseProgram | packages/expr/src/parse.ts:154-161 | The parser object, from its start, computes the grammar: tree, counter, position and error alike |
| ExprParser.Parser.ParseExpr | packages/expr/src/parse.ts:163-166 | So does each of its methods, from any state, with the depth check first |
| ExprParser.Parser.ParseTernary | packages/expr/src/parse.ts:168-178 | The ternary |
| ExprParser.Parser.ParseBinaryChain | packages/expr/src/parse.ts:180-198 | The loop of one binary level |
| ExprParser.Parser.ParseChainTurn | packages/expr/src/parse.ts:183-188 | One turn of that loop: an operator and its right operand, or the error it ends with |
| ExprParser.Parser.ParseUnary | packages/expr/src/parse.ts:200-208 | Prefix operators, one level deeper each |
| ExprParser.Parser.ParsePostfix | packages/expr/src/parse.ts:210-231 | The loop of suffixes |
| ExprParser.Parser.ParseMemberSuffix | packages/expr/src/parse.ts:213-217 | A member suffix |
| ExprParser.Parser.ParseIndexSuffix | packages/expr/src/parse.ts:218-227 | An index suffix, a string literal refused |
| ExprParser.Parser.ParsePrimary | packages/expr/src/parse.ts:233-268 | Primary forms, unknown functions and bare identifiers refused |
| ExprParser.Parser.ParseArguments | packages/expr/src/parse.ts:249-254 | The loop of arguments |
| ExprLexing.TokenReads | packages/expr/src/parse.ts:42-116 | The text of any one token is read as that token and nothing more, whatever follows that does not run into it |
| ExprLexing.LexText | packages/expr/src/parse.ts:36-119 | Tokenising the texts of any tokens, a blank after each, gives those tokens |
| ExprLexing.LiteralReads | packages/expr/src/parse.ts:57-82 | A string literal in either kind of quotes, with any of the six escapes, is read as the text it stands for |
| ExprLexing.LiteralRefused | packages/expr/src/parse.ts:57-82 | A literal that is never closed is refused as that, and one with a backslash before anything else as an unknown escape |
| ExprLexing.LongestNumeral | packages/expr/src/parse.ts:45-55 | A numeral is the longest there is at the front of the text |
| ExprLexing.LongestWord | packages/expr/src/parse.ts:83-101 | So is an identifier; a root is the whole word behind its dollar sign, or is refused |
| ExprLexing.PunctTables | packages/expr/src/parse.ts:13-34 | The operators of two characters and of one are exactly those with that text |
| ExprLexing.CharacterClasses | packages/expr/src/parse.ts:20-34 | The characters of words and numerals, listed |
| ExprLexing.NumeralShapes | packages/expr/src/parse.ts:45-55 | A numeral is digits, or digits, a point and digits |
| ExprLexing.BlanksAreSkipped | packages/expr/src/parse.ts:40-44 | Blanks, tabs and line ends are skipped, and nothing else is |
| ExprSource.Tokenize | packages/expr/src/parse.ts:36-119 | The tokeniser loop computes the token sequence of the text, or its first error |
| ExprSource.ReadToken | packages/expr/src/parse.ts:43-115 | The token at a position: numeral, string, root, identifier, or the longer operator first |
| ExprSource.ReadString | packages/expr/src/parse.ts:57-82 | The string loop: escapes, an unknown escape, an unclosed literal |
| ExprSource.ReadNumeral | packages/expr/src/parse.ts:45-55 | The numeral loop: digits, and a point only when a digit follows it |
| ExprSource.ByteLength | packages/expr/src/parse.ts:272-275 | The length of the source in UTF-8 |
| ExprSource.Utf8IsShortest | packages/expr/src/parse.ts:272-275 | A character takes the fewest bytes that hold it, a text the sum of its characters |
| ExprSource.ParseSource | packages/expr/src/parse.ts:272-277 | The whole of `parse`: too long, a bad token, a parse error, or the tree |
| ExprSource.RenderedSourceMeansTheSame | packages/expr/src/parse.ts:272-277 | From text to tree to text: the canonical text of an accepted source means the same tree, unless it exceeds 2000 bytes |
| ExprSource.AcceptedSourceIsWellFormed | packages/expr/src/parse.ts:145-152 | Every accepted source has a tree within both limits that names only table functions and never indexes by a string literal |
| ExprValues.OwnPropertySize | packages/expr/src/eval.ts:119-123 | A member is an own property, no larger than what it was read from |
| ExprValues.IndexedSize | packages/expr/src/eval.ts:125-132 | So is an element or a property read by an index |
| ExprEval.Fuel.Spend | packages/expr/src/ast.ts:69-74 | One unit less, and exhaustion from the moment the budget is overdrawn |
| ExprEval.DeepEqualNode | packages/expr/src/eval.ts:148-166 | Deep equality, ended by the fuel exactly when its cost does not fit |
| ExprEval.WalkPath | packages/expr/src/functions.ts:150-181 | A dotted path, one unit a segment tried; the empty path is the value itself |
| ExprEval.WalkGet | packages/expr/src/functions.ts:278-287 | The walk of `get`: own properties, and `undefined` counts as missing |
| ExprEval.PluckItems | packages/expr/src/functions.ts:312-319 | One unit an element and one a segment; one result an element |
| ExprEval.FilterItems | packages/expr/src/functions.ts:328-334 | One unit an element and one a segment; the elements the gate keeps |
| ExprEval.ToJsonSafe | packages/expr/src/functions.ts:66-77 | One unit for every value in the tree |
| ExprEval.NextDraw | packages/expr/src/functions.ts:380-381 | The draw at the counter, which advances by one |
| ExprEval.BinNode | packages/expr/src/eval.ts:168-184 | The strict operators: only comparison for equality costs fuel |
| ExprEval.ApplyNode | packages/expr/src/eval.ts:214-225 | A call of the table on evaluated arguments, the scope functions first |
| ExprEval.EvalAll | packages/expr/src/eval.ts:215-215 | Arguments from left to right, up to the first that fails |
| ExprEval.EvalNode | packages/expr/src/eval.ts:186-227 | Every node ends as its meaning says when the cost fits the fuel left, having spent exactly that cost, and in exhaustion when it does not |
| ExprEval.Evaluate | packages/expr/src/eval.ts:229-233 | A fresh budget: the meaning of the tree cut off at it, and the step state the meaning leaves |
| ExprRules.RulesAreExact | packages/expr/src/eval.ts:186-227 | Evaluation gives an outcome, a cost and a step state if and only if the rules of the language derive them: which operands are evaluated, in which order and from which state, which branch of a conditional and which side of the two logical operators, with the values that count as false listed |
| ExprLaws.FiniteArithmetic | packages/expr/src/eval.ts:134-184 | On finite numbers `+` is the sum, `(x - y) + y` is `x`, and negation is subtraction from zero |
| ExprLaws.FiniteOrder | packages/expr/src/eval.ts:168-184 | The comparisons of finite numbers by the sign of their difference |
| ExprLaws.FiniteDivision | packages/expr/src/eval.ts:168-184 | Division undoes multiplication; by zero it gives the infinity of the sign of the dividend, or no number |
| ExprLaws.FiniteRemainder | packages/expr/src/eval.ts:168-184 | A remainder differs from the dividend by a multiple of the divisor, is smaller than it and has the sign of the dividend |
| ExprLaws.InfiniteArithmetic | packages/expr/src/eval.ts:168-184 | The infinities under every operator |
| ExprLaws.NotANumber | packages/expr/src/eval.ts:168-184 | What is no number stays none, is in no order and equals nothing |
| ExprLaws.NumeralIsDecimal | packages/expr/src/parse.ts:45-55 | A numeral is its digits over a power of ten |
| ExprLaws.TextsJoin | packages/expr/src/eval.ts:134-146 | `+` joins texts, and a number by its text, up to 64 KiB |
| ExprLaws.RefusedIff | packages/expr/src/eval.ts:134-184 | Which operands each operator refuses, in both directions |
| ExprLaws.OperatorsAreFree | packages/expr/src/eval.ts:168-184 | Only comparing for equality spends fuel |
| ExprLaws.EqualIsSameData | packages/expr/src/eval.ts:148-166 | `==` holds if and only if both sides are the same data, identities and the order of keys forgotten, over values whose identities are those of one heap and that hold no NaN |
| ExprLaws.ArrayCost | packages/expr/src/eval.ts:148-166 | Comparing arrays costs one unit for every pair of values compared, up to the first difference |
| ExprLaws.RecordCost | packages/expr/src/eval.ts:148-166 | So does comparing objects; a key that is missing costs nothing |
| ExprLaws.ElementRead | packages/expr/src/eval.ts:125-132 | `a[i]` is the element at a whole index within the array, and nothing otherwise |
| ExprLaws.PropertyRead | packages/expr/src/eval.ts:119-132 | A property is the field of its name |
| ExprLaws.NothingThere | packages/expr/src/eval.ts:119-132 | What is not there reads as `undefined`; of an array only its length is a member |
| ExprLaws.ArrayOwns | packages/expr/src/eval.ts:119-123 | The own properties of an array are its elements, at their index in decimal without leading zeros, and its length |
| ExprLaws.PathGrows | packages/expr/src/functions.ts:150-181 | A path with one more segment is one more step from where the shorter one leads |
| ExprLaws.StepsOf | packages/expr/src/functions.ts:150-181 | A step into an array takes its decimal index, into an object its own key, and into anything else leads nowhere |
| ExprLaws.PluckYields | packages/expr/src/functions.ts:305-319 | `pluck`: at every place what the path leads to there, or which argument is wrong |
| ExprLaws.FilterYields | packages/expr/src/functions.ts:321-336 | `filterWhere`: the elements the gate lets through, in their order, or which argument is wrong |
| ExprLaws.GetYields | packages/expr/src/functions.ts:274-290 | `get`: what the own properties along the path lead to, and the third argument in place of nothing |
| ExprLaws.JsonSafeFills | packages/expr/src/functions.ts:66-77 | `toJsonSafe` puts null for what is not there and leaves all other data as it is |
| ExprLaws.RandYields | packages/expr/src/functions.ts:404-412 | `rand` counts a draw whatever it is given, and refuses anything but a number above zero |
| ExprLaws.OtherNames | packages/expr/src/eval.ts:214-225 | Every other name goes to the table of the host, or is unknown |
| ExprFacts.EvaluateTwice | packages/expr/src/eval.ts:186-233 | One tree evaluated twice from one step state, the second time with as much fuel or more: if the first ends, so does the second, with the same outcome, fuel spent, draw counter and identities; the second is exhausted only if the first was |
| ExprFacts.JsonSafeIsJson | packages/expr/src/functions.ts:66-77 | `toJsonSafe` leaves no `undefined`, keeps the size, and done again changes nothing |
| ExprFacts.CallFreeCost | packages/expr/src/eval.ts:148-227 | A call-free tree of N nodes over a scope of values no larger than S costs at most N (1 + S), and its value is no larger than S |
| ExprFacts.SmallScopeNeverExhausts | packages/expr/src/ast.ts:28-36 | A parsed call-free tree never exhausts the default budget over values of at most 49 parts |
| ExprFacts.NeverUnknown | packages/expr/src/eval.ts:222-223 | For a tree the parser accepts, the unknown-function branch is unreachable |
| ExprFacts.ReplayedDrawsSuffice | packages/expr/src/functions.ts:368-381 | A run reads only the draws it counts: with those the same, outcome, cost and counter are the same, whatever else the generator would give |
| ExprFacts.StepDrawsAreUnit | packages/expr/src/functions.ts:380-390 | The draws of a step are in [0, 1), whatever its `$random` |
| ExprFacts.RandUnit | packages/expr/src/functions.ts:404-406 | `rand()` is in [0, 1) and counts one draw |
| ExprFacts.RandBelow | packages/expr/src/functions.ts:404-410 | `rand(n)` for a positive whole n is one of 0, 1, ..., n - 1 and counts one draw |
| ExprFold.ScrambleInverts | packages/expr/src/random.ts:26-26 | Multiplying by the odd constant modulo 2^32 loses nothing |
| ExprFold.FoldInjectiveInSeq | packages/expr/src/random.ts:25-27 | For one seed, two sequence numbers fold to one word if and only if they are equal modulo 2^32 |
| ExprFold.FoldInjectiveInSeed | packages/expr/src/random.ts:25-27 | For one sequence number, two seeds fold to one word if and only if they are equal modulo 2^32 |
| ExprRandom.DeriveRandom | packages/expr/src/random.ts:11-28 | `$random` is in [0, 1) |
| ExprRandom.KnownWords | packages/expr/src/random.ts:16-28 | The words two known states are stirred to |
| ExprScope.ToScopeValue | packages/expr/src/scope.ts:26-49 | Ends on every object graph, cyclic ones included, with the copy the specification gives |
| ExprScope.ToScopeItems | packages/expr/src/scope.ts:37-40 | The array loop, cut at 10 000 elements |
| ExprScope.ToScopeFields | packages/expr/src/scope.ts:44-48 | The property loop, in key order |
| ExprScope.CopyFits | packages/expr/src/scope.ts:26-49 | Whatever the graph, the copy is a tree with nothing but `undefined` below the depth limit and no array above the length limit |
| ExprScope.CopyIsExactIff | packages/expr/src/scope.ts:26-49 | Plain data is copied unchanged if and only if it is within the limits |
| ExprScope.CopyingIsIdempotent | packages/expr/src/scope.ts:26-49 | Copying a copy, wherever it lives, changes nothing |
| ExprScope.CycleIsCut | packages/expr/src/scope.ts:11-16 | An array that holds itself becomes arrays nested to the limit |
| ExprGate.GateEqualIff | packages/expr/src/functions.ts:136-147 | A gate says equal if and only if `==` does and no more levels are compared than the limit allows |
| ExprGate.DeepestIsNotGateEqual | packages/expr/src/functions.ts:137-137 | The deepest value a scope can hold equals its copy by `==` and not for a gate |
| ExprGate.NumbersCompare | packages/expr/src/functions.ts:195-204 | Of two numbers other than NaN exactly one of `lt`, `eq` and `gt` holds, and `lte` and `gte` combine them |
| ExprGate.OrderGates | packages/expr/src/functions.ts:195-204 | The order operators on finite numbers by their difference; nothing but two numbers is in any order |
| ExprGate.NowherePasses | packages/expr/src/functions.ts:184-211 | A path that leads nowhere passes exactly `notExists`, `isEmpty` and `notContains` |
| ExprGate.EmptyGates | packages/expr/src/functions.ts:184-194 | What exists and what is empty, listed |
| ExprGate.TextGates | packages/expr/src/functions.ts:200-211 | `startsWith`, `endsWith` and `contains` on text, as cutting it in pieces |
| ExprGate.ArrayGates | packages/expr/src/functions.ts:200-211 | `contains` and `length` on arrays; anything else has neither |
| ExprGate.FilterIsIdempotent | packages/expr/src/functions.ts:328-334 | `filterWhere` keeps only elements that pass, and filtering what it kept changes nothing |
| ExprGate.NegationsPartition | packages/expr/src/functions.ts:184-211 | An operator and its negation share out the elements between them, with or without the path |
| ExprGate.EqualAndNotNeedThePath | packages/expr/src/functions.ts:195-198 | `eq` and `ne` together keep exactly the elements that have the path |
| AdbSemaphore.Semaphore.Acquire | packages/adb/src/queue.ts:18-23 | Takes a slot at once exactly when fewer than the cap are counted; parks otherwise |
| AdbSemaphore.Semaphore.ResumeWaiter | packages/adb/src/queue.ts:24-25 | A woken waiter counts itself whatever the cap is by then |
| AdbSemaphore.Semaphore.ReleaseSlot | packages/adb/src/queue.ts:28-37 | The first call gives the slot back and wakes the longest waiter; later calls do nothing |
| AdbSemaphore.Semaphore.SetMax | packages/adb/src/queue.ts:54-63 | Wakes waiters up to the new cap above the slots counted; refuses a cap below 1 |
| AdbSemaphore.FirstComeFirstServed | packages/adb/src/queue.ts:18-63 | On every run the tickets that had to wait are those woken so far, in the order they were, followed by those that still wait, in theirs: first come, first served |
| AdbSemaphore.ReleaseWakesOne | packages/adb/src/queue.ts:28-37 | A release wakes one waiter if there is one, whatever the cap; a second call does nothing |
| AdbSemaphore.ResizeWakesTheRoom | packages/adb/src/queue.ts:54-62 | A resize wakes waiters while there are any and the cap has room above the slots counted |
| AdbSemaphore.RunLosesNoWakeUp | packages/adb/src/queue.ts:18-63 | In every state of every run with a parked waiter, slots held plus slots woken but not yet counted are at least the cap |
| AdbSemaphore.HandOffKeepsCap | packages/adb/src/queue.ts:18-63 | If every wake-up is taken before the next acquire or resize, the slots held never exceed the cap or those held when it was set |
| AdbSemaphore.CapHoldsIff | packages/adb/src/queue.ts:18-63 | Without that hypothesis: after every prefix of a run, and whatever wake-ups are then taken, the slots held are within the cap or those held when it was set, if and only if every acquire and resize of the run finds room beside the slots promised |
| AdbSemaphore.EnterOvershootsIff | packages/adb/src/queue.ts:19-25 | After one acquire from within the bound, some wake-ups put the slots held above it if and only if the acquire takes a slot and the slots held and promised already reach the bound |
| AdbSemaphore.ResizeOvershootsIff | packages/adb/src/queue.ts:54-62 | The same of a resize: if and only if the slots promised before and by it do not fit beside those held |
| AdbSemaphore.HandOffHasRoom | packages/adb/src/queue.ts:18-63 | A run that takes every wake-up before the next acquire or resize always finds room |
| AdbSemaphore.OvershootExample | packages/adb/src/queue.ts:33-35 | An acquire between a wake-up and its continuation overshoots a cap of 1 |
| AdbQueue.StepInv | packages/adb/src/queue.ts:86-211 | Every step of the queue keeps its invariant: chains, links, order, counts, the semaphore and the log agree |
| AdbQueueRuns.OneAtATime | packages/adb/src/queue.ts:174-201 | On every interleaving, at most one job of a device is between its turn and its retirement |
| AdbQueueRuns.BodiesBeginInOrder | packages/adb/src/queue.ts:174-201 | Bodies of one device begin in enqueue order, each at most once |
| AdbQueueRuns.GaveUpOrStarted | packages/adb/src/queue.ts:145-196 | A job that gave up never runs; one that started never answers with giving up; a retired one has answered |
| AdbQueueRuns.AnswersAreFinal | packages/adb/src/queue.ts:145-206 | An answer, a start and a giving up are never taken back |
| AdbQueueRuns.PendingIsExact | packages/adb/src/queue.ts:125-134 | `pending` is the number of unretired links, at most the depth cap, and the map has the entry exactly while it is positive |
| AdbQueueRuns.PauseHolds | packages/adb/src/queue.ts:99-186 | On every run, a job whose body begins after a pause and before any resume had, at the pause, passed its gate or stood at one opened before; none that is enqueued after the pause, or comes to its turn after it, begins |
| AdbQueueRuns.ResumeOpens | packages/adb/src/queue.ts:106-178 | On every run, a job at its gate when the queue is resumed can pass it ever after, paused again or not; and until a pause every job that comes to its gate can |
| AdbQueueRuns.QueueRunsSemaphore | packages/adb/src/queue.ts:174-206 | The slots of the queue are those of a run of the semaphore, made of what its sections ask of it |
| AdbQueueRuns.GiveUpHolds | packages/adb/src/queue.ts:145-184 | A timeout or an abort before a job starts is its answer at once and for good, and its body never runs; later, or again, it changes nothing |
| AdbQueueRuns.IdleWaitersFire | packages/adb/src/queue.ts:112-195 | On every run every wait for idleness has been fired or still waits, none waits while nothing is in flight, and none is fired while something is |
| AdbQueueRuns.PausedTaskWaits | packages/adb/src/queue.ts:177-177 | A job that reads the gate while the queue is paused stays there until a resume |
| AdbQueueRuns.SomethingIsReady | packages/adb/src/queue.ts:174-201 | Nothing is stuck: with a job left and no pause, some section can run |
| AdbQueueRuns.ReadyDecreases | packages/adb/src/queue.ts:174-201 | Each such section leaves less to do |
| AdbQueueRuns.OnlyBodiesAreWaitedFor | packages/adb/src/queue.ts:174-201 | From any state of an unpaused queue its own sections, with no body settling, retire every job or reach a body that is running: a job is never kept waiting by anything else |
| AdbQueueRuns.QueueDrains | packages/adb/src/queue.ts:174-201 | If every body settles, an unpaused queue retires every job, frees every slot and empties the map from any state, within the sections counted as work left |
| AdbQueueRuns.IdleIsQuietIff | packages/adb/src/queue.ts:189-195 | Paused and idle, a body can begin without a resume if and only if some job is past the gate |
| AdbQueueObject.PerDeviceQueue.Pause | packages/adb/src/queue.ts:99-104 | A second pause changes nothing |
| AdbQueueObject.PerDeviceQueue.Resume | packages/adb/src/queue.ts:106-109 | Opens the current gate, once |
| AdbQueueObject.PerDeviceQueue.WaitIdle | packages/adb/src/queue.ts:112-121 | True at once exactly when nothing is in flight |
| AdbQueueObject.PerDeviceQueue.Run | packages/adb/src/queue.ts:123-134 | Refuses at the depth cap and then changes nothing; otherwise one more link at the tail |
| AdbQueueObject.PerDeviceQueue.ReachTurn | packages/adb/src/queue.ts:174-177 | The link reads the gate current at its turn |
| AdbQueueObject.PerDeviceQueue.PassGate | packages/adb/src/queue.ts:178-185 | A job that gave up answers with that; any other has started and enters `acquire` |
| AdbQueueObject.PerDeviceQueue.TakeWakeUp | packages/adb/src/queue.ts:185-185 | A woken job counts its slot |
| AdbQueueObject.PerDeviceQueue.BeginBody | packages/adb/src/queue.ts:186-188 | One more in flight |
| AdbQueueObject.PerDeviceQueue.EndBody | packages/adb/src/queue.ts:189-195 | One less in flight; at zero the idle waiters are fired before the slot is released |
| AdbQueueObject.PerDeviceQueue.RetireLink | packages/adb/src/queue.ts:197-200 | One pending less, and the entry goes at zero |
| AdbQueueObject.PerDeviceQueue.GiveUp | packages/adb/src/queue.ts:155-166 | Nothing after a start or an earlier giving up |
| AdbQueueObject.PerDeviceQueue.PendingOf | packages/adb/src/queue.ts:208-210 | The pending links of a device |
| AdbBytes.ByteQueue.PushChunk | packages/adb/src/socket.ts:48-66 | The limit aborts; a stream passes the chunk on; otherwise it is buffered and the waiting read answered if it can be |
| AdbBytes.ByteQueue.EndWith | packages/adb/src/socket.ts:68-79 | Ends the stream, or answers the waiting read with what there is |
| AdbBytes.ByteQueue.AbortWith | packages/adb/src/socket.ts:86-101 | The first abort drops the buffer and tells whoever waits; later ones do nothing |
| AdbBytes.ByteQueue.StartStreaming | packages/adb/src/socket.ts:112-128 | What is buffered goes first, as one chunk; an ended queue ends the stream at once; refused while a read waits |
| AdbBytes.ByteQueue.TakeRead | packages/adb/src/socket.ts:131-148 | A read is answered at once or waits; a second one is refused |
| AdbBytes.ByteQueue.FlushWaiter | packages/adb/src/socket.ts:162-191 | Exactly the bytes asked for, the rest stays; at the end the rest, or the error |
| AdbBytes.ByteQueue.ConcatAll | packages/adb/src/socket.ts:150-160 | All chunks as one run of bytes |
| AdbBytes.StepConserves | packages/adb/src/socket.ts:29-192 | Each step: bytes in are bytes out plus bytes buffered |
| AdbBytes.BytesAreConserved | packages/adb/src/socket.ts:29-192 | Until an abort, for any chunking, any reads and any switch to streaming: the bytes handed out followed by the buffer are the bytes pushed; buffered and streamed totals stay within the limit; a read waits only while it cannot be answered |
| AdbReads.ReadsAreAnswered | packages/adb/src/socket.ts:131-191 | On every run the reads that were not refused are answered in the order they were asked for, once each, all but one that may wait; and a read of n bytes that gets bytes gets n |
| AdbReads.EndedRead | packages/adb/src/socket.ts:131-191 | After the end every read is answered at once, by one event: with its bytes if they are there; a longer one is rejected, with the cause of the end or as cut short, and takes no byte; one to the end gets all there is unless the end had a cause |
| AdbReads.EndAnswers | packages/adb/src/socket.ts:68-79 | The end answers the waiting read by the same rule |
| AdbReads.OpenPush | packages/adb/src/socket.ts:48-66 | Before the end a waiting read is answered as soon as its bytes are there, and not before |
| AdbReads.OverflowAborts | packages/adb/src/socket.ts:48-66 | A chunk aborts if and only if it brings what is buffered, or what was streamed, above the limit |
| AdbReads.AfterAbort | packages/adb/src/socket.ts:86-148 | After an abort every read and every stream is answered with its error, and nothing else has an effect |
| AdbReads.StreamsEndOnce | packages/adb/src/socket.ts:48-128 | On every run the streams begun are those that ended, once each, and the one that has not |
| AdbReads.NothingWithoutCause | packages/adb/src/socket.ts:48-128 | A queue aborts only on too many bytes or when told to, ends and streams only when told to, and counts every streamed byte against the limit |
| AdbFraming.WriteRequest | packages/adb/src/socket.ts:10-17 | The two `set` calls into one array, overlapping when the length needs more than four digits |
| AdbFraming.LengthPrefix | packages/adb/src/socket.ts:12-12 | The four bytes before a payload read as its length if and only if that is at most 0xFFFF |
| AdbFraming.RequestRoundTripIff | packages/adb/src/socket.ts:10-17 | A request is read back as its payload if and only if that has at most 0xFFFF bytes |
| AdbFraming.BlocksDecodeInOrder | packages/adb/src/socket.ts:379-393 | Blocks of at most 0xFFFF bytes, chunked anywhere and read at any pace, decode to themselves in order, all of them once every byte is in; when they are within the limit together, nothing aborts |
| AdbFraming.BadHeaderStops | packages/adb/src/socket.ts:379-393 | A header that starts with no digit is refused: no block is added and nothing more is asked for |
| AdbFraming.HexDigitsAre | packages/adb/src/socket.ts:379-393 | The digits of a length, in either case |
| AdbFraming.ReaderReads | packages/adb/src/socket.ts:379-393 | At every point of such a run the blocks read are a prefix and the bytes still to read are the frames of the rest and whatever follows them; when the whole is within the limit, nothing has aborted |
| AdbStatus.StatusIsRead | packages/adb/src/socket.ts:366-377 | However the answer is chunked and whatever was buffered: `OKAY` is read as that, `FAIL` as its message, either with every later byte still to read; anything else is refused; one of these has happened once every byte is in; and within the limit nothing aborts |
| AdbSocketWrite.Write | packages/adb/src/socket.ts:316-333 | However much the socket takes at a time, what went out is a prefix of the data, and all of it exactly when the write finishes; it throws or stays parked as the turns say |
| AdbSocketWrite.WriteFinishes | packages/adb/src/socket.ts:316-326 | A socket that stays open and keeps taking bytes takes all of them |
| AdbSocketWrite.WriteAfterCloseIff | packages/adb/src/socket.ts:241-247 | From the turn at which the connection goes with bytes left, a write sends nothing more and never finishes: it throws if and only if it is woken to find the socket closed on this side, and is parked for ever otherwise |
| AdbShellFrames.ShellFrameParser.PushChunk | packages/adb/src/shell-frames.ts:58-62 | The state after a chunk is the state of all bytes received, whatever chunks they came in |
| AdbShellFrames.ShellFrameParser.DrainPackets | packages/adb/src/shell-frames.ts:64-90 | The loop takes every whole packet, and what it keeps is less than one |
| AdbShellFrames.ShellFrameParser.AbsorbPacket | packages/adb/src/shell-frames.ts:73-86 | Output to its channel, the exit code from the first byte, anything else ignored |
| AdbShellFrames.DecodeSplit | packages/adb/src/shell-frames.ts:58-90 | Decoding in two pieces is decoding at once |
| AdbShellFrames.ChunksDoNotMatter | packages/adb/src/shell-frames.ts:58-90 | So is decoding in any chunks |
| AdbShellFrames.PacketsDecode | packages/adb/src/shell-frames.ts:58-99 | The encoding of any packets, chunked anywhere, decodes to what they mean, with nothing left over |
| AdbShellFrames.MeaningIs | packages/adb/src/shell-frames.ts:92-99 | They mean the two concatenations and what the last exit packet says |
| AdbStream.PidStripper.HandleChunk | packages/adb/src/client.ts:703-725 | At every chunk: what was delivered is the bytes after the first newline, in order and in no empty piece, nothing before it; the PID is read from that line and never changes |
| AdbStream.StripAppend | packages/adb/src/client.ts:706-725 | Once the first line is complete later bytes only add data |
| AdbStream.StreamEndsOnce | packages/adb/src/client.ts:644-737 | On every run of a stream the lane slot goes back at most once, ahead of the socket, the kill and the report, and the caller is told at most once; a call that has been rejected or has ended has given it back unless the first delivery threw and nothing ended the stream since |
| AdbStream.EndsIff | packages/adb/src/client.ts:644-737 | After every run the next step ends the stream if and only if it is one that ends streams there; it then frees the slot, closes the socket, kills the process if its PID was read, and reports why, by what brought the end about |
| AdbStream.CallSettles | packages/adb/src/client.ts:672-727 | A failed handshake frees the slot at once, and closes the socket if there is one; otherwise the call returns, or the first delivery threw |
| AdbStream.ThrownDeliveryIff | packages/adb/src/client.ts:703-727 | After a throw out of the first delivery the slot goes back if and only if a deadline or an abort comes, and then `onEnd` is called too, on a caller whose call was rejected |
| AdbStream.SlotLostExample | packages/adb/src/client.ts:703-727 | Statuses, PID line and data in one chunk, an `onData` that throws, no deadline and no signal: the slot never goes back, whatever happens later |
| AdbStream.EndIsFinal | packages/adb/src/client.ts:653-670 | Nothing after the first ending leaves a trace: its reason stands |
| AdbExecStream.DataArrives | packages/adb/src/client.ts:672-727 | End to end: of two `OKAY`s, a line and data, chunked anywhere and looked at any time, within the limit of the queue, the call is never refused, and what is left for `onData` once the first line is stripped is a prefix of the data, and exactly the data once every byte is in |
| AdbLane.StreamLane.TakeSlot | packages/adb/src/client.ts:93-118 | Refused at once, with nothing changed, at either cap; a pinned stream is counted apart and never refused |
| AdbLane.StreamLane.ReturnSlot | packages/adb/src/client.ts:96-126 | The first release gives the place back and drops a zero entry; later ones do nothing |
| AdbLane.StreamLane.ChangeLimits | packages/adb/src/client.ts:72-75 | Caps of at least 1; no slot is taken back |
| AdbLane.LaneIsCounted | packages/adb/src/client.ts:57-127 | Over every run the global count is the sum of the per-device counts, each counts the slots out, and no entry is zero |
| AdbLane.GrantedIff | packages/adb/src/client.ts:93-118 | After every run a slot is granted if and only if it is pinned, or fewer slots of the device and fewer in all are out than the caps allow; a refusal changes nothing |
| AdbLane.LimitsAre | packages/adb/src/client.ts:72-75 | The caps are what was asked for, and at least 1 |
| AdbLane.CapsHold | packages/adb/src/client.ts:72-118 | On every run, the caps changed at any time: the slots out exceed neither cap, in all or for a device, or else not what was out when the caps were last changed; while they are as at the start, the slots out are within them |
| AdbTracker.DiffSnapshots | packages/adb/src/tracker.ts:58-71 | The two loops give the changes in snapshot order, then the removals |
| AdbTracker.DiffReplays | packages/adb/src/tracker.ts:58-71 | Replaying a diff on the old device map gives the new one, and every event makes sense when it comes |
| AdbTracker.DiffAbout | packages/adb/src/tracker.ts:58-71 | A diff says of each device one event if its state differs and none if it does not |
| AdbTracker.DiffIsOrdered | packages/adb/src/tracker.ts:58-71 | Additions and changes come in the order of the new snapshot, then the removals in the order of the old one |
| AdbTracker.DeviceTracker.EmitFromSnapshot | packages/adb/src/tracker.ts:141-166 | One snapshot: carried devices while settling, the mirror replaced, then the diff told up to the event a listener throws at |
| AdbTracker.DeviceTracker.CarryForward | packages/adb/src/tracker.ts:142-161 | While settling, the devices the snapshot does not mention are added to it |
| AdbTracker.DeviceTracker.Tell | packages/adb/src/tracker.ts:164-166 | The events before the one a listener throws at are heard, in order |
| AdbTracker.DeviceTracker.SocketOpened | packages/adb/src/tracker.ts:182-190 | The grace window is armed on reconnections only |
| AdbTracker.DeviceTracker.ConnectionDropped | packages/adb/src/tracker.ts:226-227 | The sleep before the next attempt, doubled up to five seconds |
| AdbTracker.SnapshotMeans | packages/adb/src/tracker.ts:141-162 | A snapshot replaces the device map, except while settling, when it overrides it |
| AdbTracker.EventsReproduceCurrent | packages/adb/src/tracker.ts:141-163 | On every run, replaying every event the diffs gave rise to, from nothing, gives the map of the mirror, and no event was out of place |
| AdbTracker.ListenersInStepIff | packages/adb/src/tracker.ts:161-166 | At every point of a run, replaying the events the listeners heard gives the map of the mirror, if and only if no listener ever threw with an event still to be heard |
| AdbTracker.InStepIff | packages/adb/src/tracker.ts:161-166 | One step from listeners in step leaves them in step if and only if they heard all of it |
| AdbTracker.CutDiffDiffers | packages/adb/src/tracker.ts:58-71 | A diff cut short anywhere never replays to the new map |
| AdbTracker.WindowIsTracked | packages/adb/src/tracker.ts:182-190 | The end of the window is what the connections of the run say it is |
| AdbTracker.SnapshotOnRun | packages/adb/src/tracker.ts:141-190 | On every run a snapshot replaces the device map, except inside the grace window of a reconnection, when it overrides it |
| AdbTracker.NoRemoveWhileSettling | packages/adb/src/tracker.ts:143-159 | No snapshot read inside the window removes a device, from the mirror or for the listeners |
| AdbTracker.AbsentDeviceRemovedOnce | packages/adb/src/tracker.ts:141-227 | From any state, a known device that no later snapshot mentions is removed exactly once, by the first snapshot read outside the grace window of the last connection, whatever handshakes, drops, further reconnections and restarts of the loop come in between; the listeners hear of it at most once, and for certain if they hear everything |
| AdbTracker.BackoffDoubles | packages/adb/src/tracker.ts:170-227 | The sleeps of an outage are 1, 2 and 4 seconds, then 5 |
| Workflow.SameRunsIffSameSteps | scripts/check-workflow-upgrade.ts:18-23 | Two documents have the same runs from every node, loops included, if and only if they agree on every step |
| WorkflowCheck.TargetKeyInjective | scripts/check-workflow-upgrade.ts:54-56 | Comparing keys is comparing targets |
| WorkflowCheck.V1Relations | scripts/check-workflow-upgrade.ts:82-97 | The v1 table, filled node by node |
| WorkflowCheck.TableInOrder | scripts/check-workflow-upgrade.ts:82-97 | The table lists the nodes in the order of the document, and so do the divergences |
| WorkflowCheck.V2Relations | scripts/check-workflow-upgrade.ts:119-137 | The v2 table, scripts and gates only, through `finish` nodes |
| WorkflowCheck.DiffOneDoc | scripts/check-workflow-upgrade.ts:159-185 | The divergences of every v1 node in turn |
| WorkflowCheck.V1RelationIsStep | scripts/check-workflow-upgrade.ts:73-94 | What the checker computes for a v1 node is its two steps |
| WorkflowCheck.ResolvedEdge | scripts/check-workflow-upgrade.ts:106-117 | Resolving an edge is following it, unless it leads to a `start` |
| WorkflowCheck.V2RelationIsStep | scripts/check-workflow-upgrade.ts:124-133 | What the checker computes for a v2 node is its two steps |
| WorkflowCheck.NodeDiffIsStepDiff | scripts/check-workflow-upgrade.ts:170-182 | It finds nothing at a node if and only if the node survives and both documents step alike from it |
| WorkflowCheck.CheckerIsExact | scripts/check-workflow-upgrade.ts:10-22 | It reports nothing if and only if every node survives and every run from every node is the same in both |
| WorkflowUpgrade.FindFreshId | packages/core/src/workflows/upgrade.ts:153-160 | The first free id |
| WorkflowUpgrade.FreshIdFound | packages/core/src/workflows/upgrade.ts:210-217 | A document cannot use up the candidates |
| WorkflowUpgrade.PlanIsFresh | packages/core/src/workflows/upgrade.ts:192-224 | The added ids are new and different; a `finish` is planned exactly when something needs it |
| WorkflowUpgrade.FinishNeededIff | packages/core/src/workflows/upgrade.ts:198-209 | A succeeding `finish` is needed exactly when an outcome of a gate ends the run as a success, a failing one when an outcome of any node ends it as a failure |
| WorkflowUpgrade.RefusedAs | packages/core/src/workflows/upgrade.ts:188-307 | What a document that does not upgrade is refused as |
| WorkflowUpgrade.UpgradesIff | packages/core/src/workflows/upgrade.ts:192-307 | A document upgrades if and only if its ids are unique and the nodes added leave it within the node limit |
| WorkflowUpgrade.EntryIsFirstNode | packages/core/src/workflows/upgrade.ts:228-228 | The upgraded document starts at the first v1 node |
| WorkflowUpgrade.ConvertedShape | packages/core/src/workflows/upgrade.ts:226-265 | Every node survives, ids stay unique, and no edge leads back to the start |
| WorkflowUpgrade.StepKept | packages/core/src/workflows/upgrade.ts:173-265 | A node steps as before, unless it is a script whose failure loses its success |
| WorkflowUpgrade.UpgradeIsExact | packages/core/src/workflows/upgrade.ts:188-307 | Every run is kept, from the entry and from every node, if and only if no script failure loses its success, and the checker says exactly that |
| WorkflowUpgrade.LostSuccessExample | packages/core/src/workflows/upgrade.ts:207-235 | One script that stops on failure: it succeeded in v1 and fails in v2 |
| Shutdown.Process.Shutdown | packages/core/src/index.ts:173-231 | A signal: drains, cancels or does nothing, by the phase it finds |
| Shutdown.Process.WakeDrainLoop | packages/core/src/index.ts:231-248 | One look of the drain loop |
| Shutdown.Process.WakeSettleLoop | packages/core/src/index.ts:102-107 | One look of the settle loop, and leaving after it |
| Shutdown.Process.StallTimerFires | packages/core/src/index.ts:147-158 | One tick of the stall timer |
| Shutdown.StepKeepsInv | packages/core/src/index.ts:60-250 | Every step keeps the invariant and never takes the phase back |
| Shutdown.LeavesInOrder | packages/core/src/index.ts:109-250 | On every interleaving, jobs starting at any time and any call of the daemon throwing: quiesce, cancel, release, stop and exit come in this order and, apart from calls that threw, at most once; work is in flight at the release only if its cancellation answered |
| Shutdown.ThrowNeverExits | packages/core/src/index.ts:101-222 | After a throw out of the release, the stop, the cancellation of the second signal or a look of the settle loop the log never grows: nothing in this file ends the process |
| Shutdown.ThrowsThatMatter | packages/core/src/index.ts:101-250 | After any run the next step is one that ends the process for good, or leaves nobody waiting, if and only if it is one of the throws listed |
| Shutdown.CanExitIff | packages/core/src/index.ts:101-250 | From the state after any run some continuation exits if and only if none of those throws has happened |
| Shutdown.OnlyASignalHelps | packages/core/src/index.ts:211-248 | After a quiesce that threw, or a throw out of the drain loop, nothing is done until another signal comes, which starts the cancellation |
| Shutdown.AnswersLead | packages/core/src/index.ts:126-171 | A release that answers ends the sweep as complete, and a stop that answers the process |
| Shutdown.PhaseOnlyAdvances | packages/core/src/index.ts:60-60 | The phase only advances, whatever happens later |
| Shutdown.LeaveIsEnteredOnce | packages/core/src/index.ts:109-110 | The release starts at one point of the log at most |
| Shutdown.WaitsAreBounded | packages/core/src/index.ts:101-248 | On every run the drain loop leaves at its first look after two minutes from the signal that found the process running, the settle loop after five seconds from the one that found it draining, and neither earlier with work in flight; one of the two is parked between running and leaving unless a call threw |
| Shutdown.LaterSignalsChangeNothing | packages/core/src/index.ts:193-196 | From the second signal on, another one changes nothing |
| Shutdown.SweepStarts | packages/core/src/index.ts:126-158 | Whatever step enters the release, the sweep starts with nothing settled and nothing seen |
| Shutdown.AbandonedIffStalled | packages/core/src/index.ts:147-158 | Until the release answers, the sweep is abandoned if and only if two stall ticks come with no device settling between them |
| Shutdown.SweepIsBounded | packages/core/src/index.ts:136-158 | A sweep of n devices is over by the stall tick numbered n + 2 |
| Soak.BuildSoakReport | scripts/soak.ts:96-132 | The loops compute the report |
| Soak.OneSample | scripts/soak.ts:96-132 | The report of one sample: start and end are it, and nothing happened in between |
| Soak.OneMoreSample | scripts/soak.ts:96-132 | One more sample moves the end of the report to it and every total by what it rose there |
| Soak.CountRisen | scripts/soak.ts:105-107 | One count for each device that recovers now and did not before |
| Soak.RebuiltCountsEpisodes | scripts/soak.ts:84-95 | The count is the number of distinct episodes: a device and a sample where it starts to recover |
| Soak.PollingOnlyUndercounts | scripts/soak.ts:91-94 | Deleting any samples never raises the count |
| Soak.SplitAtSharedSample | scripts/soak.ts:96-132 | Two runs that share a sample: the devices recovering there count twice, every difference adds up |
| Soak.EvaluateSoakReport | scripts/soak.ts:135-157 | The verdict is that all thresholds hold, and the breaches listed are exactly the breaches |
| Soak.HoldsIffNothingBreached | scripts/soak.ts:135-157 | All thresholds hold exactly when nothing is breached, and a run exactly at them passes |
| Soak.PollingLessNeverFails | scripts/soak.ts:96-157 | A run that passes still passes with samples left out between its first and its last |
| ShellQuote.QuotedIsOneWord | packages/adb/src/shell-quote.ts:18-20 | A quoted value is read as one word, the value, whatever characters it holds |
| ShellQuote.QuotedListReads | packages/adb/src/shell-quote.ts:18-20 | A list of quoted values joined with spaces is read as that list |
| ShellQuote.QuotedInContext | packages/adb/src/shell-quote.ts:18-20 | A value quoted into a command line is one more word and changes how nothing around it is read |
| ShellQuote.QuoteInjective | packages/adb/src/shell-quote.ts:18-20 | Different values never quote to the same text |

## Left out

- ExprSource.Tokenize: says which error comes first, not its offset or wording. Strings
  are sequences of characters, not of UTF-16 units.
- ExprLanguage.ProgramIff: says what is accepted and as what; which error a refused program
  gets, in the source a matter of wording, is said by `ExprGrammar` alone.
- ExprLaws.EqualIsSameData: for values without NaN, which equals nothing, unless an array or
  object that holds it is compared with itself.
- ExprEval.EvalNode: numbers are exact reals with infinities and NaN, without rounding
  and without a signed zero; a numeral is its decimal value.
- ExprEval.ApplyNode: the table entries other than `rand`, `now`, `pluck`, `filterWhere`,
  `get` and `toJson` are parameters with any result and any cost. So are the text of
  numbers and of JSON and the UTF-8 length of results.
- ExprEval.ToJsonSafe: a key named `__proto__` is kept as any other.
- ExprFacts.ReplayedDrawsSuffice: the counter is part of the state passed in; which
  counter a scope without one gets (`packages/expr/src/eval.ts:87-96`) is not modelled.
- ExprRandom.DeriveRandom: the inputs are taken already reduced modulo 2^32.
- ExprScope.ToScopeValue: getters, proxies and holes in arrays; the copies' identities.
- ExprValues.OwnPropertySize: says how large a member may be, not which; which one it is
  is part of the meaning that `ExprEval.EvalNode` is proved against.
- ExprValues.IndexedSize: the same of an indexed value.
- AdbQueueObject.PerDeviceQueue.Run: promises, timers and abort listeners are steps that
  may come at any time; the answer of a job's own body is not modelled.
- AdbQueueRuns.QueueDrains: for bodies that settle; whether a body does is its own affair.
- AdbFraming.BlocksDecodeInOrder: of `parseInt`, only that leading digits count; not white
  space, signs or a `0x` prefix, and so no negative length. Deadlines on reads.
- AdbSocketWrite.Write: one write at a time; what two interleaved writes put on the wire.
  Which events come after a close is the socket's and not said here.
- AdbStream.StreamEndsOnce: timers and signals are steps; whether the kill succeeds, and
  an `onEnd` that throws.
- AdbBytes.ByteQueue.StartStreaming: an `onData` that throws is a step of `AdbStream` and
  not of the queue.
- AdbExecStream.DataArrives: the two requests sent in between, deadlines, and an answer
  that refuses: the last is `AdbStatus.StatusIsRead`.
- AdbStream.PidStripper.HandleChunk: how a line is read as a PID is a parameter.
- AdbTracker.ListenersInStepIff: the listeners are taken together; those called before the
  one that throws have heard one event more.
- AdbTracker.EventsReproduceCurrent: starts from a parsed snapshot; the text of snapshots
  and the restart of the adb server are not modelled.
- WorkflowCheck.DiffOneDoc: the checks on raw JSON, the wording of divergences, and the
  node kinds the upgrade never makes.
- WorkflowCheck.CheckerIsExact: for documents with unique ids, v1 edges that name v1 nodes
  and no edge back to a `start`. The first is needed to upgrade at all (`UpgradesIff`) and
  every upgraded document has the last (`ConvertedShape`); the second is assumed.
- WorkflowUpgrade.UpgradeIsExact: the conversion is modelled on values; other fields,
  the id pattern, the layout and the step limit are left out. It assumes that v1 edges
  name v1 nodes: what a run does at a missing node is not in these files.
- Shutdown.LeavesInOrder: the banners and the phase timings are left out.
- Shutdown.ThrowNeverExits: what the host does about a rejection nobody handles.
- AdbSocket's connect and timeout handling, and `packages/core/src/daemon.ts`:
  wiring of sockets, timers and modules of the host.
- `formatSoakTable`, `countAdbProcesses`, `occupancyBreakdown`, `stats`: they would only
  add easy members.

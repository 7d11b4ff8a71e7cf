# Proofs about the Go standard library

This project models the parts of a Go source tree whose correctness is least obvious from the
code, and proves what their documentation promises. All paths below are relative to the root of
that tree.

| area | files here |
|---|---|
| regular-expression engines (`src/regexp`) | `Search`, `RegexpProg`, `MatchSpec`, `BitTable`, `Backtrack`, `Levels`, `Simulation`, `StepBooks`, `Nfa`, `Exec`, `OnePass`, `OnePassCopy`, `OnePassQueue`, `OnePassTables`, `OnePassBuild`, `OnePassRun`, `OnePassExec`, `OnePassExact`, `OnePassDepth`, `OnePassStale` |
| the lock of a network descriptor (`src/net/fd_mutex.go`, `src/net/fd_unix.go`) | `PackedWord`, `FdMutex`, `FdRuns`, `FdLifetime`, `FdTermination` |
| the racing dial (`src/net/dial.go`) | `Dial` |
| graph algorithms of `reflect` | `DeepEqual`, `FieldByName` |
| matching, decoding, printing and parsing | `PathMatch`, `PathGrammar`, `PathExact`, `Html`, `HtmlMeaning`, `IPText`, `IPNotation`, `IPGrammar` |
| order and arithmetic | `AddrSelect`, `AddrOrder`, `AddrMeaning`, `Sqrt` |

## How the models are built

**Regular expressions.** A program is a sequence of instructions, a text a sequence of runes. The
runs of a program on a text form a graph of configurations (instruction, position), the successors
of each in order of preference. `Search.Naive` is plain backtracking over such a graph with no
table of visited nodes; `RegexpProg.Wanted` uses it to say which run a search has to report, and
`MatchSpec` says what that means in terms of accepting runs alone. Which zero-width assertions hold
at a position is said of the text itself (`RegexpProg.Holds`); the flags that the engines compute
from two runes are proved to be those. The backtracker is a class with
the job stack, the bit table and the capture arrays of the source; the simulation is a class with
sparse-array queues, a thread pool and shared capture registers, all updated in place. Both are
proved to report `Wanted`, so they agree, captures included, and `Exec.DoExecute` may choose
either. The one thing the backtracker does that the simulation does not is to panic on an
`InstFail` it resumes: `Backtrack.Crashes` is the exact condition, and `Exec.NeverCrashes` shows
that no program without a branch to `InstFail` meets it, which no compiled program has but for
degenerate expressions (src/regexp/syntax/compile.go:100-101).

One-pass programs have an engine of their own. `OnePassBuild.Builder` is the check for ambiguity
with its tables, filled in pass by pass; `OnePassRun.RunOnePass` is the runner that follows them.
A program is accepted exactly if it is short and nothing clashes in the passes, as a function of
sets describes them; no unambiguous program clashes, but some ambiguous ones do not either
(`OnePassStale.AmbiguousAccepted`). From an unambiguous program to the answer of the runner nothing
is assumed of the tables (`OnePassDepth.CompileAndExecute`): the runner ends on every text, and a
match that it reports is, captures included, the one that the other engines report of the program
that was compiled. It misses none if the program is shallow: loops are entered where they return
to, and no way without a rune returns in as many loops as there are passes before the loops, one
for each instruction that the program begins with up to the first that consumes a rune or
branches. The bound is tight (`OnePassStale.OneTooDeep`, `OnePassStale.StaleTables`). Of the tables
alone, it misses none exactly if they are directed (`OnePassExact.ExactlyWhenDirected`): every
alternative leads a rune to the leg that begins with it, and the end of the text to the leg that
matches there. One further pass that changes nothing would show it (`OnePassBuild.QuietPass`,
`OnePassRun.SettledDirects`), but the check makes no such pass.

**Concurrency.** `FdRuns` and `Dial` are state machines whose steps are the atomic actions of the
goroutines: loads, compare-and-swap operations, semaphore operations, channel operations, closing
a connection. Invariants are proved for every interleaving of any number of goroutines (for the
lock) and for both racers and the caller (for the dial); termination is proved without fairness.
What a call returns is related to the run before it: a goroutine is refused only by a closed fd, and
an error of the dial means that every address of both racers was tried and failed, in order, or as
many as there was time for.

**Reflection.** `DeepEqual` runs on a heap of typed values that may be cyclic, with the source's
table of comparisons in progress and a stack of limited depth; unless the stack overflows it
decides bisimilarity, and it does not overflow a stack that is large enough if every cycle of pairs
goes through one that is remembered. `FieldByName` runs breadth first over a possibly cyclic graph
of embedded structs with counts that saturate at two.

**The rest** is proved against a declarative meaning each time: the pattern language of `path`, with
a grammar that says what can be written for it; a decoder on the original bytes for the in-place one
of `html`, and for that decoder what a reader of UTF-8 gets of every numeric and named reference; the
text form of addresses, by a grammar for parsing and a notation for printing; longest-prefix match on
bits for the policy table, scopes and rules by address prefix; and distance to the real root for
`Sqrt`. These meanings do not use the functions that the code shares with its specification.

Where the code does not do what its documentation says, the model follows the code, a member
shows an input and another gives the condition under which the two agree:

- `path.Match` may miss a name of the language (`PathMatch.GreedyMayFail`, `PathMatch.TwoSlashes`).
  It misses none exactly if no chunk between two stars can be shifted over itself past a slash, or
  some term matches no character (`PathExact.GreedyExactly`); so much can be read off the pattern,
  and it holds whenever no class between two stars matches a slash (`PathMatch.SafeIsSteady`).
- `FieldByName` finds the first of several top-level fields of the same name, blank ones for
  instance (`FieldByName.TwoBlanks`); otherwise it agrees with `FieldByNameFunc`
  (`FieldByName.FieldByName`).
- `DeepEqual` takes a value to equal itself even if it holds a function
  (`DeepEqual.FunctionBehindPointer`, `DeepEqual.PointerToFunction`), and exactly then identity
  matters (`DeepEqual.IdentityMatters`).
- `sqrt` normalises a subnormal number with a shift that binds weaker than it looks
  (`Sqrt.NormalizingNeverEnds`); it is correctly rounded exactly for the other numbers (`Sqrt.Sqrt`).
- The one-pass runner may miss a match that the other engines find: the program of
  `^z(?:a(?:bc*)*)*$` is accepted, but on "zab" it is not found (`OnePassStale.StaleTables`). They
  agree on all texts exactly when the tables are directed (`OnePassExact.ExactlyWhenDirected`), and
  always if the program is shallow (`OnePassDepth.CompileAndExecute`).

Further examples mark limits that the documentation does not contradict: unescaping is not
undone by escaping (`Html.EscapeUnescapeMayDiffer`), a reference like `&#7` of one decimal digit
without a semicolon is left alone while `&#x;`, which has no digit, stands for U+FFFD
(`HtmlMeaning.NumberMeaning`), the rewriting of a one-pass program does not
keep the order of preference (`OnePassCopy.OrderNotKept`), the sorting rules are an order only
because of the policy table (`AddrOrder.OrderNeedsTheTable`), and the backtracker panics on a
program with a branch to `InstFail` that the simulation runs (`Exec.MayCrash`). Such a branch comes
only of a node that matches nothing, which the parser and the simplifier make in degenerate cases
(src/regexp/syntax/parse.go:334-337, src/regexp/syntax/simplify.go:111-113); of other compiled
programs `NoFailTargets` holds.

## Model

| member | source | states |
|---|---|---|
| Search.NaiveSound | src/regexp/backtrack.go:133-306 | what plain backtracking returns is a path to a target that repeats no configuration |
| Search.NaiveComplete | src/regexp/backtrack.go:133-306 | the rule that a path may not repeat a configuration loses nothing: any path at all makes the search succeed |
| Search.NaiveDecides | src/regexp/backtrack.go:133-306 | plain backtracking finds a match iff one is reachable |
| Search.NaiveIsFirst | src/regexp/backtrack.go:133-306 | the path it returns precedes every other simple accepting path in the order of preference |
| Search.ExploreFindsNaive | src/regexp/backtrack.go:105-130 | the visited table changes no answer: for any targets, the first one the memoised search reaches is reached along the very path plain backtracking finds |
| Search.ExploreTracks | src/regexp/backtrack.go:339-365 | when the search fails, the visited set is closed under successors |
| Search.ExploreDistinct | src/regexp/backtrack.go:105-114 | no configuration is visited twice |
| RegexpProg.StartCondSound | src/regexp/syntax/prog.go:166-188 | a start position that leads to a match satisfies every leading condition |
| RegexpProg.EmptyOpContextIs | src/regexp/syntax/prog.go:79-110 | the flags that the engines compute from the runes around a position are exactly the assertions that hold there: beginnings and ends of text and line, and word boundaries between a letter, digit or underscore and anything else |
| MatchSpec.WantedExists | src/regexp/exec.go:118-121 | a search fails iff no start position has an accepting run |
| MatchSpec.WantedMeaning | src/regexp/backtrack.go:339-365 | the run to report is accepting, starts leftmost, in longest mode ends last, and comes first in preference among the runs that could have been chosen |
| BitTable.SetBitAt | src/regexp/backtrack.go:107-114 | setting a bit of the table sets that bit and no other |
| BitTable.BitIndexInjective | src/regexp/backtrack.go:107-109 | two configurations of a search never share a bit |
| BitTable.BitIndexInRange | src/regexp/backtrack.go:76-92 | every bit index is within the table of len(Inst)*(end+1) bits |
| BitTable.SetBitOf | src/regexp/backtrack.go:107-114 | marking a configuration marks it alone, within the table |
| Backtrack.BitState.ShouldVisit | src/regexp/backtrack.go:107-114 | true the first time a configuration is asked for; it is marked from then on and no other mark changes |
| Backtrack.BitState.Push | src/regexp/backtrack.go:118-130 | pushes a job for an unvisited configuration, marks it, and ignores InstFail |
| Backtrack.BitState.PushBack | src/regexp/backtrack.go:118-130 | a job to come back to is pushed without a visit |
| Backtrack.BitState.Reset | src/regexp/backtrack.go:76-103 | empties stack, table and registers, reusing memory where it is large enough |
| Backtrack.StandsPush | src/regexp/backtrack.go:240-253 | the job that restores a register keeps the registers those of the pending paths |
| Backtrack.BestIsFirst | src/regexp/backtrack.go:270-300 | the match on record after exploring is the one found first, or in longest mode the first of those ending last |
| Backtrack.BitState.Record | src/regexp/backtrack.go:270-300 | at a match, the reported registers are those of the better of this path and the one on record; it says whether the search stops |
| Backtrack.BitState.TryBacktrack | src/regexp/backtrack.go:133-306 | explores exactly what was not visited before; on failure the registers are restored and nothing visited matches; the work is linear in what it newly visits |
| Backtrack.RecordIsWanted | src/regexp/backtrack.go:339-365 | sharing the visited table over start positions loses nothing: the first success is the wanted run, as if each start had a table of its own |
| Backtrack.SweepIsLinear | src/regexp/backtrack.go:339-346 | over all start positions no more is visited than len(Inst)*(end+1) configurations |
| Backtrack.BitState.Backtrack | src/regexp/backtrack.go:309-366 | reports the wanted run with its captures, in both modes; panics iff a run resumes at InstFail first; takes at most 4*len(Inst)*(end+1) turns |
| Levels.NaiveByLevel | src/regexp/exec.go:200-261 | a search of the text splits into the empty transitions at one position and the search from the instructions that wait there |
| Nfa.Machine.Alloc | src/regexp/exec.go:97-108 | takes a thread from the pool or a fresh one, so that the pool and the arena stay right |
| Nfa.Machine.Free | src/regexp/exec.go:111-116 | puts the thread in hand back into the pool |
| Nfa.Machine.Contains | src/regexp/exec.go:271-273 | the sparse-array test is right whatever stale entries sparse holds |
| Nfa.Machine.Add | src/regexp/exec.go:267-319 | the queue grows by exactly the instructions reachable by empty transitions under cond, each once, in order, within its capacity; cap is left unchanged even when it belongs to a queued thread; every thread stays in one place |
| Nfa.Machine.Step | src/regexp/exec.go:207-261 | runs every thread of one queue in order; the next queue and the match on record account for everything the search still owes |
| Nfa.Machine.Clear | src/regexp/exec.go:192-200 | all threads of a queue go back to the pool |
| Nfa.Machine.Begin | src/regexp/exec.go:164-170 | adds a thread for a new start unless a match is on record |
| Nfa.Machine.Match | src/regexp/exec.go:121-189 | finds a match iff there is a wanted run, reports its captures, and returns every thread to the pool |
| StepBooks.FirstMatchStep | src/regexp/exec.go:226-241 | in first-match mode a match cuts off the threads behind it without losing the wanted run |
| StepBooks.LongestMatchStep | src/regexp/exec.go:215-230 | in longest mode dropping later starts and shorter matches loses nothing |
| StepBooks.RuneStep | src/regexp/exec.go:243-258 | a thread that consumes the rune moves into the next queue and the account still balances |
| Simulation.RestAdd | src/regexp/exec.go:267-319 | what a queue will find after Add is what it would have found, or else what the added instruction leads to |
| Simulation.Balanced | src/regexp/exec.go:121-189 | once nothing is pending, the match on record is the wanted one |
| Exec.VectorFits | src/regexp/exec.go:445-453 | the size test guarantees that the visited table fits its fixed capacity |
| Exec.AnswerWanted | src/regexp/exec.go:427-468 | the answer exists iff some start position has an accepting run |
| Exec.NeverCrashes | src/regexp/backtrack.go:118-130 | if no instruction leads to an InstFail, the backtracker does not panic, whatever the text |
| Exec.MayCrash | src/regexp/backtrack.go:162-186 | a limit: on a program with a branch to InstFail it panics although the empty text matches |
| Exec.DoExecute | src/regexp/exec.go:445-468 | whichever of backtracker and simulation runs, the answer is the same, captures included: always if no instruction leads to an InstFail, and otherwise unless the stated panic occurs |
| OnePass.MatchRunePos | src/regexp/syntax/prog.go:203-248 | matches a single rune or one of its case foldings, and otherwise finds the pair that holds the rune, or that none does |
| OnePass.FindPair | src/regexp/syntax/prog.go:221-248 | the look at the first pairs and the binary search find the pair that holds a rune, if there is one |
| OnePass.Extend | src/regexp/onepass.go:175-185 | appends a pair iff it starts behind the last one |
| OnePass.MergeRuneSets | src/regexp/onepass.go:156-203 | fails iff the two sets share a rune, panics iff a set has odd length; otherwise the result is ordered, is the union, and each rune maps to a leg that has it |
| OnePass.OnePassNext | src/regexp/onepass.go:69-78 | goes to the leg of the pair that holds the rune, else to the matching leg or nowhere |
| OnePass.Dispatch | src/regexp/onepass.go:69-78 | at a merged alternative every rune goes to the leg whose set holds it |
| OnePassQueue.QueueOnePass.Contains | src/regexp/onepass.go:115-120 | membership, whatever stale entries sparse holds |
| OnePassQueue.QueueOnePass.Insert | src/regexp/onepass.go:122-135 | adds a new element at the end, once, and never runs out of room |
| OnePassQueue.QueueOnePass.Next | src/regexp/onepass.go:100-104 | delivers the elements in the order of insertion |
| OnePassCopy.RewrittenKeeps | src/regexp/onepass.go:229-278 | one turn of the rewriting keeps, for every pc, the set of other instructions reachable through alternatives, self-loops included |
| OnePassCopy.Rewrite | src/regexp/onepass.go:235-277 | the pointer updates in place amount to the stated rewrite |
| OnePassCopy.Copy | src/regexp/onepass.go:220-280 | a fresh copy in which every rewrite has been made, with the same meaning |
| OnePassCopy.CopyKeepsRuns | src/regexp/onepass.go:229-278 | on every text, every run of either program has a counterpart in the other that differs in alternatives only: it consumes, captures and ends alike |
| OnePassCopy.OrderNotKept | src/regexp/onepass.go:232-234 | the order of preference is not kept: an example |
| OnePassTables.TablesExact | src/regexp/onepass.go:331-459 | settled tables are exact: a set holds just the runes that may come next after empty transitions, a mark says that a match may come before any |
| OnePassTables.SettledIsClear | src/regexp/onepass.go:297-301 | at an alternative with settled tables the match engine can always tell which branch to take |
| OnePassBuild.Builder.CompleteAlt | src/regexp/onepass.go:341-367 | the entry of an alternative: refused exactly if both legs match or share a rune in the tables; a leg that matches comes first |
| OnePassBuild.Builder.CompleteStraight | src/regexp/onepass.go:368-385 | sets and marks are passed back through instructions that consume nothing |
| OnePassBuild.Builder.CompleteRune | src/regexp/onepass.go:387-456 | a rune instruction gets its set once and is never marked |
| OnePassBuild.Builder.Check | src/regexp/onepass.go:333-459 | one check ends on every program; what it enters is true of the program and is what the passes of sets say; it succeeds exactly if nothing clashes in them; it refuses no unambiguous program; it changes only what it newly visits; if it changes nothing then what it visits is settled |
| OnePassBuild.QuietPass | src/regexp/onepass.go:462-484 | a pass from the start that changes nothing shows that the tables are settled |
| OnePassBuild.Builder.MakeOnePass | src/regexp/onepass.go:302-491 | never panics; accepts exactly the programs of fewer than 1000 instructions in whose passes nothing clashes, and every unambiguous one among them; marks and sets are those of the sequence of passes |
| OnePassRun.FoundIsRun | src/regexp/exec.go:359-417 | what the runner finds is an accepting run, whatever the tables |
| OnePassRun.SettledDirects | src/regexp/onepass.go:297-301 | settled tables are directed: every alternative leads a rune to the leg that begins with it, and the end of the text to the leg that matches there |
| OnePassRun.Followed | src/regexp/exec.go:359-417 | with directed tables the runner goes along any accepting run, so that there is one at most |
| OnePassRun.HaltsFrom | src/regexp/exec.go:359-417 | on tables that lead a rune nowhere but to a leg that begins with it or to one that may match, complete or not, the loop ends, on every text |
| OnePassRun.DirectedLeads | src/regexp/exec.go:359-417 | directed tables are such tables, so that the loop ends on them |
| OnePassRun.FindsWanted | src/regexp/exec.go:321-418 | with directed tables the runner finds the wanted run, in both modes, or that there is none |
| OnePassRun.RunOnePass | src/regexp/exec.go:324-418 | matches iff its run ends at InstMatch, and reports the registers of that run |
| OnePassExec.StaysGuarded | src/regexp/onepass.go:544-569 | what the compiler asks of the program before rewriting holds after it |
| OnePassExec.SameAnswer | src/regexp/onepass.go:534-581 | the program rewritten for one pass and the original one have the same answers, captures included, if the rewritten one has one accepting run at most |
| OnePassExec.ExecuteOnePass | src/regexp/exec.go:440-444 | with directed tables the one-pass branch answers what the other engines answer |
| OnePassExact.ExactlyWhenDirected | src/regexp/exec.go:321-418 | of an unambiguous program without idle instructions the runner finds what the other engines find, on all texts, exactly when the tables are directed |
| OnePassExact.FailingText | src/regexp/exec.go:388-391 | for every leg of an alternative that is not directed there is a text on which the runner does not agree |
| OnePassDepth.VisitExact | src/regexp/onepass.go:333-459 | a check that starts with exact entries for all that is less than n loops deep ends with exact entries for all that it visits n loops deep, as it completes no entry before those of what follows, but for loops |
| OnePassDepth.AllPassesExact | src/regexp/onepass.go:462-484 | of a shallow program all passes together leave exact sets and marks behind its first instructions, and later passes do not undo it |
| OnePassDepth.ShallowDirects | src/regexp/onepass.go:297-301 | the tables made of a shallow unambiguous program are directed: at any alternative the match engine can tell which branch to take |
| OnePassDepth.LeftIsLed | src/regexp/onepass.go:353-367 | the tables made of any unambiguous program that is accepted lead a rune nowhere but to a leg that begins with it or to one that may match |
| OnePassDepth.FoundIsAnswer | src/regexp/exec.go:321-418 | a match that the runner reports on such tables, complete or not, is the one that the other engines report of the original program |
| OnePassDepth.CompileAndExecute | src/regexp/exec.go:440-444 | an unambiguous program checked, turned into tables and run: the runner ends; a match it reports is the one that the other engines report of the original program, captures included; if the program is shallow it misses none |
| OnePassDepth.TwoLoopsAreShallow | src/regexp/onepass.go:462-484 | an example: the program of `^z(?:ab*)*$` is shallow |
| OnePassStale.StaleTables | src/regexp/onepass.go:462-484 | a program that is accepted with unsettled tables and a text that matches it, on which the runner answers no |
| OnePassStale.OneTooDeep | src/regexp/onepass.go:462-484 | that program misses being shallow by one loop |
| OnePassStale.AmbiguousAccepted | src/regexp/onepass.go:341-367 | an example: the program of `^z(?:a(?:ba*)*)*$` is accepted although both legs of its innermost loop begin with the same rune |
| FdMutex.IncrefFields | src/net/fd_mutex.go:48-62 | on the packed word, Incref adds a reference, is refused when closed and panics exactly when the count is full; no field carries into another |
| FdMutex.CloseFields | src/net/fd_mutex.go:64-91 | closing sets the bit, takes a reference and clears both wait counts |
| FdMutex.DecrefFields | src/net/fd_mutex.go:93-104 | Decref takes one reference off, and panics exactly when there is none |
| FdMutex.LockFields | src/net/fd_mutex.go:106-147 | a free lock is taken with a reference, a taken one adds a waiter; refusal and panics as stated |
| FdMutex.UnlockFields | src/net/fd_mutex.go:149-180 | unlocking releases lock and reference and takes a waiter off when there is one; no borrow between fields |
| FdMutex.LastFields | src/net/fd_mutex.go:93-104 | the test for the last reference is true iff the fd is closed and no reference is left |
| FdRuns.StepKeepsInv | src/net/fd_mutex.go:48-180 | every atomic step of every goroutine keeps the invariant (fields are head counts; waiters are accounted for) and none panics |
| FdLifetime.RunKeepsInv | src/net/fd_mutex.go:48-180 | the invariant holds throughout every run in which fewer than 2^20 operations overlap |
| FdLifetime.MutualExclusion | src/net/fd_mutex.go:37-47 | at most one goroutine holds each lock |
| FdLifetime.DestroyedOnce | src/net/fd_unix.go:131-201 | at most one goroutine is told to destroy the fd, and then nobody holds a reference |
| FdLifetime.DestroyedAtLast | src/net/fd_unix.go:189-201 | once all have returned from a closed fd, one was told to destroy it |
| FdLifetime.NoLostWakeup | src/net/fd_mutex.go:106-180 | when a lock is free and a goroutine sleeps for it, a wake-up is under way or a woken goroutine is about to try |
| FdLifetime.CloseWakesAll | src/net/fd_mutex.go:64-91 | after a close every sleeper's wake-up is in a semaphore or owed |
| FdLifetime.RefusedOnlyWhenClosed | src/net/fd_mutex.go:48-147 | at any time of any run: whoever was refused stands before a closed fd, so that Incref, IncrefAndClose and RWLock return false only when it is closed |
| FdLifetime.AcquiredWhenOpen | src/net/fd_mutex.go:48-147 | whoever acquires does so in a step at which the fd is open and the word is the one it has loaded |
| FdLifetime.ReturnedHasHeld | src/net/fd_mutex.go:93-180 | in every run, whoever has returned without being refused held what it asked for before |
| FdLifetime.OpenRefusesNobody | src/net/fd_mutex.go:45-46 | while nobody closes the fd nobody is refused |
| FdLifetime.Progress | src/net/fd_mutex.go:48-180 | while somebody has not returned, somebody can move |
| FdTermination.StepDescends | src/net/fd_mutex.go:48-180 | every atomic step lowers a well-founded rank, retries and spurious wake-ups included |
| FdTermination.AllReturn | src/net/fd_mutex.go:48-180 | in every schedule all goroutines return |
| Dial.PartialDeadlineFair | src/net/dial.go:79-99 | each address gets an equal share of the time left, to the nanosecond, but two seconds if that is more and there is that much, and never more than there is |
| Dial.StepKeepsInv | src/net/dial.go:253-353 | every step of caller, racers and timer keeps the invariant |
| Dial.PlayKeepsInv | src/net/dial.go:253-353 | the invariant holds in every interleaving |
| Dial.NothingLeaks | src/net/dial.go:253-311 | in the end the one connection left open is the one returned, or none |
| Dial.OpenIsHeld | src/net/dial.go:253-311 | every open connection is in exactly one pair of hands |
| Dial.ResultIsEarned | src/net/dial.go:313-353 | in every interleaving a racer that has sent its result has tried its addresses in order, each once, up to the first that could be connected to, or else all of them unless the deadline had passed at the first one not tried; its error is that of the first address |
| Dial.ResultIsRight | src/net/dial.go:249-281 | the caller gets a connection that a racer made or an error; an error means that every address of both racers was tried and failed, or as many as there was time for, and it is the primary's, about its first address |
| Dial.HeadStart | src/net/dial.go:258-300 | the fallback racer dials nothing before its delay is over, and that is when the timer has fired |
| Dial.NoLateStart | src/net/dial.go:268-275 | once a connection has been taken the timer does not fire any more, and a racer still waiting for it never dials |
| Dial.NoDialAfterReturn | src/net/dial.go:318-323 | once the caller has returned no racer begins another dial |
| Dial.Progress | src/net/dial.go:253-311 | no deadlock before caller and racers are done |
| Dial.RaceEnds | src/net/dial.go:253-353 | every race takes a number of steps linear in the number of addresses |
| DeepEqual.VisitDetermines | src/reflect/deepequal.go:39-61 | an entry of the visited table, in canonical order, says which two values are compared |
| DeepEqual.Comparison.DeepValueEqual | src/reflect/deepequal.go:22-127 | on a stack of limited depth, on any heap: true means that all claims made are borne out by one another, and whatever a bisimulation relates does not compare unequal; the stack does not overflow if the pairs are ranked and there is room |
| DeepEqual.Comparison.EqualContents | src/reflect/deepequal.go:63-126 | the same for the parts of arrays, slices, structs, interfaces, pointers, maps and functions |
| DeepEqual.DeepEqual | src/reflect/deepequal.go:135-145 | if it answers: true iff some bisimulation up to identity relates the two values; it does answer, on cyclic values too, if every cycle of pairs passes one that is remembered and the stack is large enough |
| DeepEqual.IdentityMatters | src/reflect/deepequal.go:47-50 | the shortcuts for identical memory change the answer exactly for equal values that reach a non-nil function |
| DeepEqual.FunctionBehindPointer | src/reflect/deepequal.go:117-122 | a pointer to a struct with a function is related to itself by a bisimulation up to identity, but by no plain one |
| DeepEqual.PointerToFunction | src/reflect/deepequal.go:117-122 | an example: on such a heap DeepEqual answers true |
| FieldByName.ScanField | src/reflect/type.go:927-981 | one field of the level: a second match annihilates, an embedded struct is queued once and counted twice at most |
| FieldByName.NextTop | src/reflect/type.go:894-926 | skipping visited types and saturating counts at two keeps what the level says about all paths of that depth |
| FieldByName.FoundDenotes | src/reflect/type.go:944-956 | a single match of a level is the field denoted |
| FieldByName.Annihilated | src/reflect/type.go:883-886 | two matches at one depth mean that the name denotes nothing |
| FieldByName.NothingLeft | src/reflect/type.go:902-909 | when no level is left no path of any length matches, cycles included |
| FieldByName.FieldByNameFunc | src/reflect/type.go:882-988 | ends on cyclic embeddings and returns the only match at the shallowest depth that has one, or that there is none |
| FieldByName.FieldByName | src/reflect/type.go:992-1011 | a named field of the struct itself is found, the first if there are several; the result agrees with that rule exactly unless the name is that of several top-level fields |
| FieldByName.TwoBlanks | src/reflect/type.go:994-1003 | an example: two blank fields and the name "_" |
| PathMatch.ScanChunk | src/path/match.go:85-111 | splits off the stars and the chunk up to the next star outside of brackets |
| PathMatch.ScanSplits | src/path/match.go:85-111 | that split is the split of the parsed pattern at its top-level stars |
| PathMatch.MatchClass | src/path/match.go:122-158 | reads a class to its end and decides whether it holds the character; malformed classes are noticed |
| PathMatch.MatchChunk | src/path/match.go:116-185 | consumes exactly the characters that the chunk matches one by one |
| PathMatch.LeftmostWillDo | src/path/match.go:60-77 | if a chunk cannot be shifted, the leftmost place serves whenever any place does |
| PathMatch.GreedySound | src/path/match.go:38-81 | whatever greedy placement accepts is in the language |
| PathMatch.GreedyComplete | src/path/match.go:38-81 | for patterns in which no chunk between two stars can be shifted, greedy placement accepts the language |
| PathMatch.SafeIsSteady | src/path/match.go:60-77 | no chunk can be shifted if no class between two stars matches a slash |
| PathMatch.GreedyMayFail | src/path/match.go:16-78 | for other patterns it does not: the pattern `*[^x]/*c` and a name of its language that greedy placement misses |
| PathMatch.TwoSlashes | src/path/match.go:38-81 | on these two texts Match answers false without an error |
| PathMatch.Match | src/path/match.go:38-81 | true only for names in the language, an error only for malformed patterns; on well-formed ones exactly greedy placement, and so exactly the language if no chunk between two stars can be shifted |
| PathGrammar.PatternLanguage | src/path/match.go:16-37 | a pattern is read as a sequence of terms exactly if it can be written for it by the grammar of the documentation: stars, question marks, classes of characters and ranges, negated or not, and characters, plain or escaped |
| PathExact.SlashBound | src/path/match.go:16-37 | a name of the language has no more slashes than the pattern has terms that match one |
| PathExact.MissedName | src/path/match.go:60-77 | for every pattern with a chunk that can be shifted, and no term that matches nothing, a name of its language that greedy placement misses |
| PathExact.GreedyExactly | src/path/match.go:38-81 | greedy placement, and so Match, finds every name of the language if and only if no chunk between two stars can be shifted or some term matches no character |
| Html.EntityFits | src/html/escape.go:145-166 | no reference decodes to more bytes than it has, provided that none of the tables does |
| Html.UnescapeEntity | src/html/escape.go:61-167 | writes in place what the decoder says of the original bytes; the unread suffix is intact |
| Html.Unescape | src/html/escape.go:170-187 | in-place unescaping equals the decoder on the original bytes |
| Html.UnescapeEscape | src/html/escape.go:199-209 | unescaping undoes escaping, for every byte string |
| Html.EscapeUnescapeMayDiffer | src/html/escape.go:199-209 | escaping does not undo unescaping: an example |
| Html.EscapeString | src/html/escape.go:201-203 | replaces the five special bytes one by one |
| Html.UnescapeString | src/html/escape.go:210-215 | decodes the whole string; without an ampersand it is returned as it is |
| HtmlMeaning.DecodeEncode | src/html/escape.go:123-159 | a decoder written from the bit layout of UTF-8 (section 3 of RFC 3629) gets every rune back from its encoding, whatever follows, and U+FFFD from what is no rune |
| HtmlMeaning.NumberMeaning | src/html/escape.go:72-124 | a numeric reference of at least four bytes stands for the rune of its numeral, by place values in base 10 or 16 and in 32 bits: 0x80 to 0x9F as in Windows-1252, U+FFFD for zero, surrogates and what is too large; a shorter one stands for itself |
| HtmlMeaning.EveryNumber | src/html/escape.go:72-114 | every text that begins with `&#` begins with such a reference |
| HtmlMeaning.NameMeaning | src/html/escape.go:126-166 | a named reference in the tables stands for its one or two runes; another one for the longest of its beginnings of two or more bytes within the limit that is, followed by the rest of the name; otherwise for itself |
| HtmlMeaning.EveryName | src/html/escape.go:126-142 | every other text that begins with an ampersand begins with a named reference |
| HtmlMeaning.AttributeMeaning | src/html/escape.go:145-153 | in the value of an attribute no beginnings are looked for, and a name without a semicolon before an equals sign stands for itself |
| HtmlMeaning.EscapedIsSafe | src/html/escape.go:189-203 | an escaped text has no special bytes but the ampersands of the five references |
| HtmlMeaning.EscapedUnchanged | src/html/escape.go:197-203 | escaping leaves a text as it is iff it has no special byte |
| IPText.ReadBack | src/net/parse.go:121-160 | a number that was printed is read back, in both bases, whatever follows |
| IPText.ZeroRunIsFirstLongest | src/net/ip.go:276-294 | the elided groups are the first longest run of at least two zero groups (section 4.2 of RFC 5952) |
| IPText.ParseText | src/net/ip.go:258-313 | parsing the text of any address gives the address back, IPv4 addresses in their 16-byte form |
| IPText.AppendHex | src/net/parse.go:201-212 | appends the hexadecimal digits without leading zeros |
| IPText.Uitoa | src/net/parse.go:183-198 | the decimal digits, in a buffer that is large enough |
| IPText.Dtoi | src/net/parse.go:121-133 | reads the longest number, up to the limit |
| IPText.Xtoi | src/net/parse.go:137-160 | the same for hexadecimal digits |
| IPText.FindZeroRun | src/net/ip.go:276-294 | the loop finds the run that the specification function names |
| IPText.String | src/net/ip.go:258-313 | the text of an address, of either family or of odd length |
| IPNotation.TextIsNotation | src/net/ip.go:254-313 | the text of an IPv4 address, in either form, is its octets in decimal with dots in between; that of any other address its groups in lower-case hexadecimal without leading zeros, with a double colon for the first longest run of at least two zero groups, if there is one (section 4 of RFC 5952) |
| IPNotation.DigitsNumeral | src/net/parse.go:174-212 | the digits printed for a number are its numeral by place values, in lower case, without leading zeros |
| IPGrammar.DottedLanguage | src/net/ip.go:495-523 | a dotted form is accepted iff it is four decimal numerals of at most 255 joined by dots, and then denotes their bytes |
| IPGrammar.ColonLanguage | src/net/ip.go:529-631 | a colon form is accepted iff it is eight groups, or fewer with one ellipsis, the last two possibly in dotted form (section 2.2 of RFC 4291), and then denotes their bytes |
| IPGrammar.AddressLanguage | src/net/ip.go:638-649 | a text is parsed iff it is one of the two forms, and to what it denotes |
| IPText.ParseDotted | src/net/ip.go:495-523 | the loop accepts the dotted forms and no other text |
| IPText.ParseHex | src/net/ip.go:529-631 | the loop with its in-place expansion accepts the colon forms and no other text |
| IPText.ExpandInPlace | src/net/ip.go:614-625 | the groups behind the ellipsis are moved to the end in place and the gap is zero |
| IPText.Parse | src/net/ip.go:638-649 | the choice of parser by the first separator |
| AddrSelect.CIDRMask | src/net/ip.go:69-89 | bit k of the mask is set iff k is below the number of ones; bad sizes give nil |
| AddrSelect.SimpleMaskLength | src/net/ip.go:382-407 | the number of ones of a mask of ones followed by zeros, -1 for every other mask |
| AddrSelect.Size | src/net/ip.go:409-418 | ones and bits of a canonical mask, 0 and 0 for others |
| AddrSelect.MaskRoundTrip | src/net/ip.go:66-68 | CIDRMask is the inverse of Size |
| AddrSelect.Contains | src/net/ip.go:456-471 | true iff the address agrees with the network on every bit of the mask |
| AddrSelect.ContainsPrefix | src/net/ip.go:432-471 | for a CIDR network: same family and the same leading bits |
| AddrSelect.Classify | src/net/addrselect.go:306-313 | the first entry that holds the address |
| AddrSelect.LongestPrefix | src/net/addrselect.go:303-305 | on the table sorted in any way by mask length, Classify is longest-prefix match and the row is unique (section 2.1 of RFC 6724) |
| AddrSelect.PrecedenceMarksV4 | src/net/addrselect.go:234-239 | precedence 35 is given exactly to the addresses with To4() != nil |
| AddrSelect.CommonPrefixLen | src/net/addrselect.go:353-388 | the number of leading bits in common, up to 64 for IPv6 and 32 for IPv4, 0 across families |
| AddrOrder.ByRFC6724.constructor | src/net/addrselect.go:20-36 | every candidate gets the attributes of its own addresses |
| AddrOrder.ByRFC6724.Swap | src/net/addrselect.go:85-90 | exchanges two candidates in all four slices, so that they stay aligned |
| AddrOrder.ByRFC6724.Less | src/net/addrselect.go:96-212 | the first rule of section 6 of RFC 6724 that speaks decides |
| AddrMeaning.PolicyMeaning | src/net/addrselect.go:222-272 | the entry found for an address has the precedence and the label that section 2.1 of RFC 6724 gives the longest of its prefixes |
| AddrMeaning.ScopeMeaning | src/net/addrselect.go:327-343 | link-local scope for 127/8, 169.254/16, ::1 and fe80::/10, the low half of the second byte for ff00::/8, site-local for fec0::/10, global otherwise |
| AddrMeaning.RulesPoint | src/net/addrselect.go:101-211 | of two candidates alike up to a rule the one is preferred that has a source (rule 1), one of matching scope (2), one of matching label (5), the higher precedence (6), the smaller scope (8) or, in one family, the longer common prefix (9); if no rule speaks, none |
| AddrMeaning.ContainsShort | src/net/ip.go:432-471 | ContainsPrefix for networks given by four bytes |
| AddrOrder.RulesCompareKeys | src/net/addrselect.go:96-212 | the rules compare candidates by keys of their own, lexicographically, because of the table |
| AddrOrder.StrictWeakOrder | src/net/addrselect.go:96-212 | Less is asymmetric and transitive, and so are ties |
| AddrOrder.OrderNeedsTheTable | src/net/addrselect.go:186-207 | without the table's precedence the rules are no such order: an example |
| AddrOrder.FormIsIrrelevant | src/net/addrselect.go:345-352 | the two forms of an IPv4 address are alike to the order |
| Sqrt.Digits | src/math/sqrt.go:124-138 | the loop computes the integer root and twice the remainder, without overflow of a word |
| Sqrt.NextRoot | src/math/sqrt.go:127-138 | each turn keeps s = 2q and ix*r = N - q*q |
| Sqrt.RoundsRight | src/math/sqrt.go:139-142 | the extra digit rounds to the nearest; ties do not occur |
| Sqrt.NearestInDistance | src/math/sqrt.go:72-76 | every other float is farther from the real root |
| Sqrt.NormalizingNeverEnds | src/math/sqrt.go:110-116 | for an even subnormal number the normalising loop does not end |
| Sqrt.PositiveRoot | src/math/sqrt.go:107-144 | for every positive finite number on which it ends: correctly rounded (section 5.4.1 of IEEE 754-2008) iff the number is normal |
| Sqrt.Sqrt | src/math/sqrt.go:99-144 | by the fields of the format, zeros, positive infinity and NaN are returned as they are, other negative numbers give NaN, and the rest is rounded as stated |

## Left out

- Text encoding: texts are sequences of runes and positions count runes, so the widths of UTF-8 and the size test of doExecute in bytes are not modelled; `path` patterns are single-byte characters.
- Regular expressions: the parser and compiler, `InstAltMatch` in the runners, skipping by literal prefix, rune readers, the cache of machines and the reuse of slice capacity in `init`.
- Exec.DoExecute: the one-pass branch is a method of its own, OnePassDepth.CompileAndExecute.
- OnePass.MatchRunePos: the runes that a rune folds to are a parameter.
- OnePassExec.ExecuteOnePass: requires directed tables, which the check does not guarantee; OnePassDepth.CompileAndExecute requires none.
- OnePassExact.ExactlyWhenDirected: that the condition is necessary is shown for programs in which every instruction can be reached and can go on to a match and the only conditions are those at the two ends of the text; others may keep every text away from an entry that is not directed.
- OnePassRun.RunOnePass: requires that the run comes to an end, which is proved for the tables of every unambiguous program that is accepted (OnePassDepth.LeftIsLed, OnePassRun.HaltsFrom), and not for those of accepted ambiguous ones; runes are at most U+10FFFF; skipping the literal prefix, `onePassPrefix` and `cleanupOnePass` are left out.
- OnePassDepth.CompileAndExecute: requires an unambiguous program; of accepted ambiguous ones it is not shown what the runner answers. That a shallow program is one the runner misses nothing of is shown in one direction only; of the tables both are (OnePassExact.ExactlyWhenDirected).
- OnePassBuild.Builder: the pairs of an InstRune, case folding included, are given with the program; `build` and `walk`, which nothing uses, are left out.
- Empty-width conditions are sets of assertions instead of bit masks; capture slices are objects that own a sequence, so that aliasing is identity.
- The program handed to the engines is well formed: targets are in range, instruction 0 is InstFail, registers 0 and 1 belong to the machine.
- Descriptors: sockets, the poller, finalizers and memory-order effects weaker than sequential consistency; goroutines release once what they acquired, as the documentation demands.
- Dial: real connections, timers and clocks; their outcomes are arbitrary steps. Resolving names and `Dialer.Dial` itself.
- DeepEqual.DeepEqual: that the stack suffices is shown for comparisons that come back to a pair of values only through one that is remembered; others the code may end or not. Floats that are not equal to themselves are not modelled.
- FieldByName: `FieldByIndex` and the building of the result; a field is returned by its index path.
- Html: the entity tables are parameters that must satisfy the length property that the decoder relies on (the two references that would break it are commented out in src/html/entity.go:2159-2161); `strings.Replacer` is a substitution byte by byte.
- IPText: zones, `ParseCIDR`, text marshalling.
- AddrSelect: finding source addresses, the sort itself; the table is any order of its rows that is sorted by mask length, given as prefixes instead of text.
- Sqrt.Sqrt: even subnormal numbers, on which the code does not end.

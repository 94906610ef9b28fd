# Models of the stateful parts of the platform

Dafny models of the code in the repository that carries state, loops or arithmetic, with
proofs of what that code promises. `dafny verify dfyconfig.toml` checks everything.

| part | modules |
|---|---|
| the mutation harness and its journal (`scripts/mutate.py`) | Utf8, SourceText, JournalProtocol, JournalRuns, Harness, HarnessOutcomes |
| the hand-over document (`scripts/handover_timeouts.py`) | TextLines, TotalLine, MarkdownRow, HandoverShape, HandoverDoc, HandoverRoundTrip, HandoverTheorems, HandoverRows, HandoverLoops, HandoverRaises, LineInsertion |
| the fleet simulator (`agent/cmd/fleet-sim`) | Apportionment, FloatShares, FleetAllocation, FleetFairness, Sampling, Expansion, ExpansionLeftovers, Templates, HostAddress, GeneratorTexts, GeneratedValues, SendLoop |
| the ATT&CK scorer (`agent/cmd/attack-scorer`) | Techniques, Attribution, AttributionLaws, CreditMeaning, Chains, Scorecard |
| the event path of the agent (`agent/cmd/agent`) | AlertGate, Aggregator, MemoryFindings |
| shared | Common, Decimal, PythonText, GoStrings |

Code that changes state step by step is a class or a method with loops, proved equal to a
specification; what is promised is then proved of the specification.

**The journal.** `JournalProtocol` is a state machine over a disk (files and an optional
journal) and a process. A file being written holds arbitrary bytes until the write is
complete; where harm is shown to happen it holds what a killed write leaves, a beginning of
the UTF-8 bytes (section 3 of RFC 3629). Between any two steps the process may be killed, a signal
may arrive, or a statement may raise. `Harness` is the class: it logs every change it makes, and the log is
shown to be a path of that machine.

**The hand-over document.** A document is a text. Lines are classified by how they start,
tables and headings are found as the code finds them, and the total line is a matcher
written out. The word characters of `\b` are a parameter of which only this is assumed: the
last characters of the two titles are word characters, a space is not. Which characters beside
the ASCII ones and "²" are digits is left open (`PythonText.DIGITS`): every theorem holds for
any choice. `int` and `str` refuse numbers of more than 4300 digits, as Python does from 3.11 on;
reading and writing raise then.

**The fleet.** Hosts are shared out in doubles, an operation at a time. Of rounding four things are
assumed (`FloatShares.Rounding`): it keeps the order and whole numbers below 2^53, its error on
what lies between 2^-53 and 2^53 is one part in 2^53 at most, and the integer part of a double and
the rest are doubles. What the loops
compute is a function for all weights; what is promised is proved while the products stay below
2^53 (`FleetFairness.Modest`; `FleetFairness.SmallIsModest` says how many hosts that allows).
The rates of a profile are doubles with infinities and not-a-number; their arithmetic is rounded too,
in any way that keeps order, doubles and halves of whole numbers (`Sampling.ROUND`).

**The scorer.** A score is specified by what it means: the greatest rank, the least delay
that is not negative, some crediting alert that blocks, the first alert of the best rank.
`CreditMeaning` says the same of the texts of the alerts and the table of tactics alone.

**The agent and the send loop.** The select statements are sequences of inputs in any order,
and whether a send fails is part of the input.

## What the proofs found

- The comment at `scripts/mutate.py:18-20` says that the one unprotected moment lies between
  the journal and the first byte changed. That moment is safe. The one that is not lies
  before it: once `_pending` is set (line 237) and until the journal is in place (line 184),
  the signal handler and the exit hook rewrite the file with no journal behind them.
  `JournalRuns.HandlerMayBeKilledIff` gives the exact condition, `JournalRuns.WindowLosesFileIff`
  the files that can be lost.
- A kill during a write can cut a character in two and leave a file that does not decode. `recover`
  then raises, on every start, until someone repairs the file by hand
  (`JournalRuns.RecoverCompletesIff`). It can happen exactly with texts that are not ASCII
  (`JournalRuns.TornCharacterBlocksIff`), and not in a run that writes none
  (`JournalRuns.AsciiNeverBlocks`).
- Files are read and written as text, so a file with carriage returns comes back with other
  line endings (`HarnessOutcomes.UnchangedIff`).
- In the hand-over document the two headings share one table when one stands right under the
  other: `table_at` starts on the line below and lets a heading on that line pass. The total
  line has to stand outside what is rewritten. The round trip holds exactly on the remaining
  documents (`HandoverTheorems.RoundTripIff`), and on those for exactly the rows that
  `HandoverRows.ReadyRowsIff` names. The comparison is one of sets and does not see
  a row written twice (`HandoverLoops.DuplicateRowPasses`).
- `parse_doc` promises at lines 206-208 not to raise. It does, on a row whose minutes satisfy
  `isdigit` and are no decimal digits, such as "²" (`HandoverRaises.OtherDigitRaises`), and on minutes
  or a total of more than 4300 digits (`HandoverRaises.LongMinutesRaiseIff`,
  `HandoverRaises.LongTotalRaisesIff`); `HandoverLoops.ReadDoc` has the exact condition. On a document
  that `--apply` has written it does not (`HandoverTheorems.WrittenDoesNotRaise`).
- The comment at `agent/cmd/fleet-sim/profile.go:397-398` says that ties go by profile order. The
  remainders compared are doubles, and equal remainders of shares of different size can differ
  there: of five hosts for weights 4, 1 and 1 the second profile gets two (`FleetFairness.TieMovesHost`).
  Nothing else moves: larger remainders stay larger, so the result is as close to the proportions as
  any (`FleetFairness.NoFleetIsFairer`). `FloatShares.PositionDecidesIff`
  says exactly when position decides after all, `FloatShares.OnlyAllocationIff` exactly when nothing
  depends on ties.
- Point 2 of the comment above `attribute` (`agent/cmd/attack-scorer/main.go:250-251`) says an
  alert is credited to one run only. The code credits every run it matches, as the comment inside
  the loop says. On what it returns, no alert detects two runs of a log exactly when no two runs,
  widened by the window on both sides, overlap (`AttributionLaws.OneRunEachIff`); for alerts of
  one technique the runs are widened at their ends only (`AttributionLaws.DetectedTogetherIff`).
- The help text of `-batch-size` (`agent/cmd/fleet-sim/main.go:154`) calls it a maximum. Over every
  run a batch is larger exactly when an event is generated for a host whose last attempt failed
  with a full batch (`SendLoop.OverfullIff`), by no more than one event for each failure in a row
  (`SendLoop.RunFleet`), and by as much as that (`SendLoop.EverySizeIsTried`).
- `-out` is written before `-baseline` is read. With one name for both the run is compared with
  itself and only a negative tolerance fails it (`Scorecard.OwnCardDecides`); that is the verdict of
  the earlier card exactly under the condition of `Scorecard.OneNameAgreesIff`.
- The urgent-send gate takes a clock reading that is the zero time for none
  (`AlertGate.SpacingSurvivesIff`). That is a property of the gate: the agent gives it the current
  time only, which is never the zero time.
- A subnet of prefix length 0 is refused as too small, because its span is shifted out of the
  word (`HostAddress.AcceptedIff`). That simulated hosts sit in private space
  (`agent/cmd/fleet-sim/generate.go:516-519`) is a matter of the profile: the address is private
  exactly when the subnet is (`HostAddress.StaysInBlockIff`).
- `Validate` promises that a profile is never silent, and its checks are comparisons that
  not-a-number passes. With finite rates the promise holds (`Sampling.FiniteIsNeverSilent`); with
  rates that are not numbers an accepted profile can produce nothing
  (`Sampling.SilentProfileExists`, exact condition `Sampling.SilentIff`).
- `Validate` does not bound the ranges of sizes and bytes. The length of one that is 2^63 - 1 wide or more
  does not fit 64 bits, and drawing from it panics. `GeneratedValues.AcceptedPanicsIff` gives the exact
  condition, `GeneratedValues.WideIsAccepted` such a profile for every one with a file.
- Whether a connection is encrypted is drawn anew from the ports (`agent/cmd/fleet-sim/generate.go:258`), so an
  event can have port 80 and be marked encrypted. It agrees with its port on all draws exactly when the ports of the
  spec are all 443 or none is (`GeneratedValues.EncryptedAgreesIff`).
- The comment at `agent/cmd/fleet-sim/generate.go:388` promises answers outside the private blocks. The first
  octet runs from 20 to 219, so 172.16/12 and 192.168/16 are reached: the name css is answered by 172.30.3.2
  (`GeneratedValues.PrivateAnswerExists`, exact condition `GeneratedValues.AnswerIsPrivateIff`).
- `{{user}}` and `{{host}}` can be left over after expansion, when what is put in completes a
  placeholder with the text around it; a user called `user` is enough. `GeneratorTexts.LeftOnHostIff`
  says exactly for which users and which prefixes of host names. `{{srcip}}` is never left, nor are
  the random and date placeholders.

## Model

| member | source | states |
|---|---|---|
| `SourceText.WrittenBack` | scripts/mutate.py:52-59 | a text read and written back reads the same, and is the same bytes exactly when it has no carriage return |
| `SourceText.UniversalFixedIff` | scripts/mutate.py:52-54 | reading leaves a text as it is exactly when it has no carriage return |
| `SourceText.UniversalAppend` | scripts/mutate.py:52-54 | reading goes piece by piece if no "\r\n" is cut in two |
| `SourceText.LineEndsReadAlike` | scripts/mutate.py:52-54 | wherever they stand, "\r\n" and a "\r" that no "\n" follows read as "\n" |
| `Utf8.EncCarries` | scripts/mutate.py:57-59 | the bytes of a character are in the ranges of RFC 3629, section 3, carry its number, and are the fewest that do |
| `SourceText.TextLeftIff` | scripts/mutate.py:57-59 | what a killed write leaves of a text is, where it decodes, a beginning of it, and can be any |
| `SourceText.UndecodableLeftIff` | scripts/mutate.py:57-59 | it may fail to decode exactly when the text holds a character that is not ASCII |
| `JournalProtocol.StepKeepsInv` | scripts/mutate.py:170-268 | every step of the protocol, a kill, an exception, a launch or a signal outside the window included, keeps the invariant |
| `JournalRuns.CrashSafety` | scripts/mutate.py:170-247 | over every run without a signal in the window: without a journal the tree is whole, with one its entries are the originals and every other file is whole; a `recover` that completes leaves the original tree and no journal |
| `JournalRuns.CrashSafetyToTheByte` | scripts/mutate.py:200-218 | the same to the byte when neither the originals nor the files at that point hold a carriage return |
| `JournalRuns.HandlerMayBeKilledIff` | scripts/mutate.py:237-268 | of what a killed write leaves: no kill in the middle of the handler's writes does harm exactly when it is not the case that `_pending` is set and the journal is missing, or nothing pending holds any text |
| `JournalRuns.HandlerMayBeKilled` | scripts/mutate.py:237-268 | outside that window such a kill does no harm whatever it leaves |
| `JournalRuns.WindowLosesFileIff` | scripts/mutate.py:237-247 | of the files a case can patch, exactly those that hold any text can be lost: a signal between the two, a kill while the handler writes, and `recover` completes on what the kill left, which is not the original |
| `JournalRuns.SignalRestores` | scripts/mutate.py:242-268 | a signal at any step, more signals during the handler included: when the handler has ended the process the tree is whole and there is no journal |
| `JournalRuns.ExceptionRestores` | scripts/mutate.py:303-317 | an exception out of the tests starts the `finally` block; when that is done the tree is whole and there is no journal |
| `JournalRuns.RecoverCompletesIff` | scripts/mutate.py:200-218 | `recover` can complete exactly when every file the journal names, if it is there, decodes |
| `JournalRuns.TornCharacterBlocksIff` | scripts/mutate.py:200-239 | a kill while the patched file is written, with no signal, can leave a tree on which no `recover` completes exactly when the text written holds a character that is not ASCII |
| `JournalRuns.AsciiNeverBlocks` | scripts/mutate.py:200-268 | over every run that writes ASCII texts only, signals in the window included, `recover` can complete at every point |
| `JournalRuns.RestoreTwiceIsOnce` | scripts/mutate.py:242-268 | once `_restore` has come to its end, another one, started by a signal or the exit hook and stopped anywhere or not at all, changes nothing on disk |
| `Harness.PathKeepsInv` | scripts/mutate.py:138-345 | every path of the protocol that starts under the invariant stays under it: the link from the class to the protocol |
| `Harness.Harness.ClearJournal` | scripts/mutate.py:195-198 | `_pending` is empty and the journal gone; logged as steps of the protocol |
| `Harness.Harness.RecoverFile` | scripts/mutate.py:207-216 | one entry of `recover`: rewritten exactly when it reads otherwise |
| `Harness.Harness.Recover` | scripts/mutate.py:200-218 | fails exactly when a named file does not decode; otherwise the files are put back, the journal is gone, and the list says which were rewritten |
| `Harness.Harness.WriteJournal` | scripts/mutate.py:170-193 | the journal becomes what `_pending` says, in one step |
| `Harness.Harness.Apply` | scripts/mutate.py:222-240 | absent file, undecodable file or missing pattern: nothing is touched; otherwise the new tree is the old one with the first occurrence of the pattern in that file, as read, replaced, and nothing else (`Damaged`), with the journal written before |
| `Harness.Harness.RestoreFile` | scripts/mutate.py:243-246 | one file is written back |
| `Harness.Harness.Restore` | scripts/mutate.py:242-247 | every file `_pending` names holds the text it says; `_pending` is empty and the journal gone |
| `Harness.Harness.InstallHandlers` | scripts/mutate.py:251-268 | the handlers are installed once |
| `Harness.Harness.TryCase` | scripts/mutate.py:294-317 | one case judged and undone; the verdict in terms of positions in the text and of what the tests say of the tree with the first occurrence replaced (`IsVerdict`) |
| `Harness.PatchDamages` | scripts/mutate.py:232-240 | a case patches exactly when its pattern occurs in its file as read, and there is one way to damage that file: the first occurrence, replaced |
| `Harness.JudgeIsVerdict` | scripts/mutate.py:294-317 | survived exactly when the tests are green on the damaged tree, not a kill when red without building, killed when red otherwise; skipped and not shipped exactly when the pattern does not occur, by whether the file is there |
| `Harness.Harness.RunCases` | scripts/mutate.py:293-317 | the counters equal the tally of the specification, the tree is undone |
| `Harness.Harness.RunBody` | scripts/mutate.py:277-345 | baseline, cases, final test and exit code |
| `Harness.Harness.Run` | scripts/mutate.py:277-345 | exception, exit code, counts and files as specified, for every disk it is started on; started on a safe disk it ends on one, without a journal unless it raised |
| `HarnessOutcomes.AfterAllIsRewritten` | scripts/mutate.py:293-317 | a run that is not stopped leaves every file as it reads, and writes only those some case patches |
| `HarnessOutcomes.UnchangedIff` | scripts/mutate.py:293-317 | it gives back the very bytes exactly when no case patches a file with a carriage return |
| `HarnessOutcomes.MendedReads` | scripts/mutate.py:200-218 | after `recover` every file the journal names reads as it says, and a file that did so already, or is not named, keeps its bytes |
| `HarnessOutcomes.RunMeans` | scripts/mutate.py:270-345 | over all trees: when a run raises, when it ends with 0, and that a red baseline leaves the tree as mended with nothing tried |
| `HarnessOutcomes.CasesAreIndependent` | scripts/mutate.py:293-321 | then each case is judged as if alone, and the five counters are the numbers of cases so judged and sum to the number of cases |
| `HarnessOutcomes.OrderDoesNotCount` | scripts/mutate.py:293-321 | the counters do not depend on the order of the cases |
| `HarnessOutcomes.ExitCodeMeans` | scripts/mutate.py:319-345 | exit code 0 exactly when the baseline is green, nothing survives and, if strict, no pattern is missing; the final test cannot differ from the baseline |
| `Apportionment.RoundingLargestIsOptimal` | agent/cmd/fleet-sim/profile.go:379-403 | among all integer vectors with the same sum, rounding the largest remainders up has the least total distance from the exact shares, however ties are broken |
| `Apportionment.LargestRemainderIsUnique` | agent/cmd/fleet-sim/profile.go:397-403 | with ties going to the earlier profile there is exactly one such vector |
| `Apportionment.HeavierGetsNoFewer` | agent/cmd/fleet-sim/profile.go:389-403 | a heavier profile never gets fewer hosts above the floor, however ties are broken |
| `Apportionment.LeftoversAreFew` | agent/cmd/fleet-sim/profile.go:401-403 | the hosts left after the integer parts are fewer than the profiles, so the wrap-around never acts |
| `FleetAllocation.SortStableSorts` | agent/cmd/fleet-sim/profile.go:397-400 | the stable sort by descending remainder orders the remainders, ties by profile |
| `FleetAllocation.TotalWeight` | agent/cmd/fleet-sim/profile.go:380-383 | the loop computes the sum of the weights |
| `FleetAllocation.GiveWhole` | agent/cmd/fleet-sim/profile.go:389-396 | every profile gets the integer part of its share as computed in doubles, an operation at a time, and its remainder as computed is noted |
| `FleetAllocation.GiveLeftovers` | agent/cmd/fleet-sim/profile.go:401-403 | one more to each in the order, round and round, as often as there are hosts left |
| `FleetAllocation.SharePart` | agent/cmd/fleet-sim/profile.go:379-404 | the counts are those of the specification |
| `FleetAllocation.Deal` | agent/cmd/fleet-sim/profile.go:406-411 | the profiles in order, each as often as it counts |
| `FleetAllocation.PadOrCut` | agent/cmd/fleet-sim/profile.go:412-414 | n hosts: those of the list as far as they go, then the profiles in turn |
| `FleetAllocation.AllocateFleet` | agent/cmd/fleet-sim/profile.go:365-415 | for all weights and numbers of hosts, however doubles are rounded: the list of the specification; so it is a function of the profiles and n |
| `FleetFairness.SharesAreServed` | agent/cmd/fleet-sim/profile.go:389-403 | the integer parts are given, and the hosts left go, all of them and one each, to the largest remainders as computed, equal ones by position |
| `FleetFairness.AllocationCensus` | agent/cmd/fleet-sim/profile.go:365-415 | counting the hosts of each profile in the list gives back the counts: nothing is filled up and nothing cut |
| `FleetFairness.HostsStandInOrder` | agent/cmd/fleet-sim/profile.go:406-411 | said of the list and its census alone: host k is of profile i exactly where the hosts counted for the profiles before it end and those up to it do not; so all hosts of the first profile come first |
| `FleetFairness.EveryHostHasAProfile` | agent/cmd/fleet-sim/profile.go:365-415 | whatever the numbers and however doubles are rounded, there are n hosts, each of one of the profiles |
| `FleetFairness.AllocationRoundsLargest` | agent/cmd/fleet-sim/profile.go:365-415 | above the floor some largest exact remainders are rounded up |
| `FleetFairness.QuotaHolds` | agent/cmd/fleet-sim/profile.go:349-403 | with n hosts for m profiles, n not below m: every profile has one host, and beside it the floor or ceiling of its exact share of n - m; with fewer, the floor or ceiling of its share of n; a heavier one, or an equal one that comes earlier, has no fewer hosts |
| `FleetFairness.WholeShareIsExact` | agent/cmd/fleet-sim/profile.go:391-396 | a share that is a whole number is given exactly |
| `FleetFairness.CensusIsComplete` | agent/cmd/fleet-sim/profile.go:406-414 | the census of any list of hosts of the profiles sums to its length |
| `FleetFairness.NoFleetIsFairer` | agent/cmd/fleet-sim/profile.go:365-415 | no other list of n hosts of the profiles is closer, above the floor, to the exact proportions |
| `FleetFairness.TieMovesHost` | agent/cmd/fleet-sim/profile.go:397-403 | five hosts for weights 4, 1 and 1 are shared out in doubles as 2, 2 and 1 |
| `FloatShares.OnlyQuotientRounds` | agent/cmd/fleet-sim/profile.go:391-395 | while the numbers and the product stay below 2^53 only the quotient is rounded, and taking the integer part away is exact |
| `FloatShares.WholeIsFloor` | agent/cmd/fleet-sim/profile.go:391-392 | the integer part of a share as computed is the exact one |
| `FloatShares.RestKeepsOrder` | agent/cmd/fleet-sim/profile.go:391-400 | a larger exact remainder is larger as computed |
| `FloatShares.FloatIsOptimal` | agent/cmd/fleet-sim/profile.go:389-403 | so serving the remainders as computed rounds some largest exact remainders up, and no other way of dealing out the hosts is closer |
| `FloatShares.ServedByFloatIsUnique` | agent/cmd/fleet-sim/profile.go:364-403 | one allocation only is served by the remainders as computed, equal ones by position |
| `FloatShares.OnlyAllocationIff` | agent/cmd/fleet-sim/profile.go:397-403 | the allocation is the only one that rounds largest remainders up, whatever decides ties, exactly when no share rounded up has the remainder of one that is not |
| `FloatShares.PositionDecidesIff` | agent/cmd/fleet-sim/profile.go:397-403 | the allocation in doubles is the exact one with ties by position exactly when, among shares tied on its border, no later one has the larger computed remainder |
| `FloatShares.TieMoves` | agent/cmd/fleet-sim/profile.go:397-400 | weights 4, 1 and 1 with two hosts to share: in doubles the allocation is 1, 1, 0, with the tie by position it is 2, 0, 0 |
| `Sampling.Validate` | agent/cmd/fleet-sim/profile.go:206-257 | accepts exactly the profiles that meet every condition |
| `Sampling.CheckSpecs` | agent/cmd/fleet-sim/profile.go:259-344 | a loop of the spec checks accepts exactly when all specs are good |
| `Sampling.CheckRates` | agent/cmd/fleet-sim/profile.go:228-250 | rates not negative, and specs for every kind with a rate |
| `Sampling.PickWeighted` | agent/cmd/fleet-sim/generate.go:437-456 | none exactly without items; the first item when the weights are not positive; otherwise the item the draw falls on, the trailing return never reached, whatever the weights |
| `Sampling.DrawnIff` | agent/cmd/fleet-sim/generate.go:448-454 | a draw gives item i exactly when it lies between the weight before i and the weight up to i |
| `Sampling.DrawnByWeight` | agent/cmd/fleet-sim/generate.go:437-456 | exactly weight(i) of the possible draws give item i |
| `Sampling.PickKind` | agent/cmd/fleet-sim/generate.go:117-149 | the first kind that uses the draw up, else the last kind with a rate, else a process; for all rates, infinities and not-a-number included, and however doubles are rounded |
| `Sampling.StopsUpToIff` | agent/cmd/fleet-sim/generate.go:133-142 | on finite rates the search stops from every start up to their sum exactly when it stops from the sum |
| `Sampling.KindAlwaysFound` | agent/cmd/fleet-sim/generate.go:133-148 | then it stops on every draw of accepted rates, so the fallback never acts |
| `Sampling.WholeRatesAlwaysFound` | agent/cmd/fleet-sim/generate.go:133-148 | as it does with whole rates that add up to less than 2^52 |
| `Sampling.KindInProportion` | agent/cmd/fleet-sim/generate.go:117-142 | of the draws on which nothing is rounded a kind is picked on exactly those of an interval whose length is its share of the rates |
| `Sampling.PickedIsPositive` | agent/cmd/fleet-sim/generate.go:135-143 | the first loop never picks a kind whose rate is 0 or not a number |
| `Sampling.FallbackMeans` | agent/cmd/fleet-sim/generate.go:143-148 | where the search does not stop, no kind with a rate used the draw up, and the kind given is the last with a rate, or a process where none has one |
| `Sampling.RegistryMeansWindows` | agent/cmd/fleet-sim/profile.go:252-254 | a registry event is drawn for an accepted profile only if that is for Windows |
| `Sampling.Generator.Next` | agent/cmd/fleet-sim/generate.go:151-175 | no event exactly without specs; the spec is drawn by weight; only events made are counted |
| `Sampling.Generator.NextOfAnyKind` | agent/cmd/fleet-sim/main.go:547 | the kind and the spec are those the draws fall on; with an accepted profile no event comes out exactly when no rate is a positive number and there is no process |
| `Sampling.SilentIff` | agent/cmd/fleet-sim/generate.go:117-175 | the same of any kind picked, where every kind with a rate has a spec |
| `Sampling.NonePositiveNeedsNaN` | agent/cmd/fleet-sim/profile.go:221-223 | accepted rates without a positive number hold not-a-number |
| `Sampling.FiniteIsNeverSilent` | agent/cmd/fleet-sim/generate.go:151-152 | with finite rates an accepted profile is never silent, however doubles are rounded, and the kind picked has a rate |
| `Sampling.NotANumberIsSilent` | agent/cmd/fleet-sim/profile.go:199-247 | with rates that are not numbers a profile without processes is accepted, and silent on every draw |
| `Sampling.SilentProfileExists` | agent/cmd/fleet-sim/profile.go:199-247 | there are accepted profiles that are silent on every draw |
| `Sampling.NeverSilentIff` | agent/cmd/fleet-sim/profile.go:226-247 | with whole sane rates no draw is silent exactly when every kind with a rate has a spec, which is what is checked |
| `Sampling.EverySpecIsDrawn` | agent/cmd/fleet-sim/profile.go:259-344 | in an accepted profile every spec is drawn by exactly as many draws as it weighs, and that is at least one |
| `Expansion.ReplaceWhileFound` | agent/cmd/fleet-sim/generate.go:376-384 | a loop that replaces the first occurrence until there is none ends, equals one pass from left to right, and leaves no occurrence, for every text that cannot be part of one |
| `Expansion.OccurrenceAvoids` | agent/cmd/fleet-sim/generate.go:376-384 | no occurrence of a placeholder overlaps a text put in |
| `Expansion.PassKeepsOut` | agent/cmd/fleet-sim/generate.go:376-384 | a later pass brings back no placeholder that an earlier one removed |
| `Expansion.Expand` | agent/cmd/fleet-sim/generate.go:369-386 | the passes in order; nothing is left of the random and date placeholders |
| `Templates.PassFills` | agent/cmd/fleet-sim/generate.go:373-384 | on a template of braceless texts and slots a pass fills the slots of its sort, with its texts in order, and touches nothing else |
| `Templates.TemplateIsFilled` | agent/cmd/fleet-sim/generate.go:368-386 | for a host whose texts have no braces: the same texts with every slot filled by its own value, and every draw used once, in the order of the slots |
| `Templates.DrawsRead` | agent/cmd/fleet-sim/generate.go:376-381 | the texts drawn, read as numbers: eight hexadecimal digits of a 32-bit number, and a number from 1 to 99999 |
| `ExpansionLeftovers.ReplaceAllLeavesIff` | agent/cmd/fleet-sim/generate.go:373-375 | over all texts: one pass can leave its placeholder exactly when what it puts in touches it (occurs in it, holds it, ends with its beginning or begins with its end) |
| `GeneratorTexts.LeftOnHostIff` | agent/cmd/fleet-sim/generate.go:369-386 | over all texts, of the whole expansion on a host of a run: `{{user}}` can be left exactly when the user touches it, or one of the two prefixes of the host name holds it, or the first begins with its end; `{{host}}` exactly when the prefixes do; `{{srcip}}` never |
| `GeneratorTexts.LeftWithAddressIff` | agent/cmd/fleet-sim/generate.go:369-386 | the same of any host name: `{{user}}` exactly when the user or the name touches it, `{{host}}` exactly when the name does, `{{srcip}}` never |
| `GeneratorTexts.AddressTouchesNone` | agent/cmd/fleet-sim/generate.go:516-540 | no printed address touches a placeholder that has no digit |
| `GeneratorTexts.NameTouchesIff` | agent/cmd/fleet-sim/main.go:225 | a host name touches a placeholder exactly when one of its prefixes holds it or the first begins with its end; the number never matters |
| `GeneratorTexts.PaddedReads` | agent/cmd/fleet-sim/main.go:225 | the number of a host has four digits at least and reads back |
| `GeneratorTexts.NamesAreDistinct` | agent/cmd/fleet-sim/main.go:225 | under the same prefixes no two hosts have one name |
| `GeneratorTexts.UserCalledUser` | agent/cmd/fleet-sim/generate.go:373 | with a user called user, `{{user}}` can be left |
| `ExpansionLeftovers.PassKeepsIn` | agent/cmd/fleet-sim/generate.go:373-384 | a pass for one placeholder keeps an occurrence of another |
| `ExpansionLeftovers.DrawsDoNotMatter` | agent/cmd/fleet-sim/generate.go:376-384 | the random numbers and dates neither bring such a placeholder in nor take one away |
| `HostAddress.HostAddr` | agent/cmd/fleet-sim/generate.go:520-540 | the octets of the specification, or an error |
| `HostAddress.AcceptedIff` | agent/cmd/fleet-sim/generate.go:529-533 | an address is given exactly for IPv4 blocks of prefix length 1 to 30; the block of length 0 is refused, its span having been shifted out |
| `HostAddress.OctetsOfHost` | agent/cmd/fleet-sim/generate.go:529-539 | the four octets are those of the first address of the block plus the index modulo the addresses it can give plus 1 |
| `HostAddress.HostIsInside` | agent/cmd/fleet-sim/generate.go:516-538 | the address is in the subnet and is neither its first nor its last; nothing wraps around |
| `HostAddress.SameAddressIff` | agent/cmd/fleet-sim/generate.go:534-536 | two hosts of a subnet share an address exactly when their indices agree modulo the addresses it can give |
| `HostAddress.DistinctAddresses` | agent/cmd/fleet-sim/generate.go:534-536 | so a fleet that is no larger has distinct addresses |
| `HostAddress.StaysInBlockIff` | agent/cmd/fleet-sim/generate.go:516-519 | the address lies in a wider block, such as a private one, exactly when the subnet does |
| `GeneratedValues.PickedIff` | agent/cmd/fleet-sim/generate.go:458-470 | what can be drawn from a list is exactly what it holds |
| `GeneratedValues.AcceptedIsListed` | agent/cmd/fleet-sim/profile.go:259-344 | in an accepted profile every text and port that an event needs is always one that its spec lists |
| `GeneratedValues.EncryptedAgreesIff` | agent/cmd/fleet-sim/generate.go:247-258 | a connection is marked encrypted exactly when its port is 443, on all draws, exactly when the ports are all 443 or none is |
| `GeneratedValues.BetweenIff` | agent/cmd/fleet-sim/generate.go:423-428 | in 64 bits: a draw panics exactly when the range is 2^63 - 1 wide or more; otherwise the values drawn are exactly those of the range |
| `GeneratedValues.AcceptedPanicsIff` | agent/cmd/fleet-sim/profile.go:278-300 | an accepted profile can make the generator panic exactly when one of its file sizes ranges that widely, or a range of bytes is all of 0 to 2^63 - 1 |
| `GeneratedValues.WideIsAccepted` | agent/cmd/fleet-sim/profile.go:278-300 | such a range in place of another is still accepted |
| `GeneratedValues.AnswerIsStable` | agent/cmd/fleet-sim/generate.go:388-412 | the answer for a name does not depend on case, nor on a dot behind it |
| `GeneratedValues.AnswerIsPrivateIff` | agent/cmd/fleet-sim/generate.go:388-421 | the answer is in a block of RFC 1918, section 3, exactly when the hash of the name is of one of two families |
| `GeneratedValues.PrivateAnswerExists` | agent/cmd/fleet-sim/generate.go:388-421 | the answer for the name css is 172.30.3.2 |
| `SendLoop.Runner.Record` | agent/cmd/fleet-sim/main.go:659-665 | the tally of some events becomes the tally of those and the new ones |
| `SendLoop.Runner.Send` | agent/cmd/fleet-sim/main.go:503-525 | nothing when nothing is pending; otherwise one more attempt with the next number, what is pending kept if it fails; counters and tally follow |
| `SendLoop.Runner.Turn` | agent/cmd/fleet-sim/main.go:527-556 | the new state of the host and the log of attempts, for every kind of turn; `SendLoop.TurnMeans` says what they are |
| `SendLoop.TurnMeans` | agent/cmd/fleet-sim/main.go:503-556 | over every run: a turn makes an attempt exactly when the host then holds something, the event generated included, and, on a turn to generate, the batch size at least; the attempt is of all it holds, which stays pending unless the attempt goes through; the other hosts stay as they are |
| `SendLoop.Runner.Manifest` | agent/cmd/fleet-sim/main.go:774-783 | the total is the number of events in the batches the streams took |
| `SendLoop.RunFleet` | agent/cmd/fleet-sim/main.go:440-556 | for every interleaving of any hosts and every pattern of failures: what a host delivered followed by what is pending is what it generated, in order; its sequence number is its attempts; hosts and attempts are those of the turns played one by one; counters and tally are those of the log; attempts are numbered 1, 2, 3, ... per host |
| `SendLoop.TurnOfHost` | agent/cmd/fleet-sim/main.go:499-556 | a turn of a host keeps that |
| `SendLoop.TurnOfOther` | agent/cmd/fleet-sim/main.go:499-556 | and keeps it for the other hosts |
| `SendLoop.DeliveredAllIff` | agent/cmd/fleet-sim/main.go:515-525 | everything a host generated was delivered exactly when nothing is pending |
| `SendLoop.EndedHostHolds` | agent/cmd/fleet-sim/main.go:503-556 | over every run in which the last turn of a host is of the flush ticker or its end: nothing is pending exactly when its last attempt, if any, went through |
| `SendLoop.EndedHostDeliveredAllIff` | agent/cmd/fleet-sim/main.go:503-556 | and everything it generated was delivered exactly then, whatever failed before |
| `SendLoop.OverfullIff` | agent/cmd/fleet-sim/main.go:515-552 | over every run: some batch is larger than the batch size exactly when, at some turn, an event is generated for a host whose last attempt failed with a full batch |
| `SendLoop.EverySizeIsTried` | agent/cmd/fleet-sim/main.go:515-552 | for every batch size and every number of failures in a row there is a run with an attempt of the batch size and that many more events; so the bound is reached |
| `SendLoop.PlayedHolds` | agent/cmd/fleet-sim/main.go:503-552 | over every run: a host holds a full batch exactly when its last attempt failed with one |
| `Techniques.ExtractTechnique` | agent/cmd/attack-scorer/tactics.go:177-191 | the loop finds the first technique id |
| `Techniques.ScanIsTechnique` | agent/cmd/attack-scorer/tactics.go:177-191 | what is extracted is a technique id or nothing |
| `CreditMeaning.ScanIsFirst` | agent/cmd/attack-scorer/tactics.go:177-191 | nothing exactly where no 'T' stands before a digit; otherwise, from the first such 'T' on, as far as digits and dots go, without the dots at the end |
| `CreditMeaning.WrittenAnyWay` | agent/cmd/attack-scorer/tactics.go:174-200 | an id in lower case and with space around it is that id |
| `Techniques.ExtractAgain` | agent/cmd/attack-scorer/tactics.go:177-200 | extracting from a technique id gives it back |
| `Techniques.SameTechniqueIff` | agent/cmd/attack-scorer/tactics.go:207-232 | of two ids: equal, or one the base of the other; and symmetric |
| `Techniques.SameTechniqueIsNotTransitive` | agent/cmd/attack-scorer/tactics.go:216-232 | two different sub-techniques are each the same as their base and not the same as each other |
| `Techniques.ShareTactic` | agent/cmd/attack-scorer/tactics.go:235-245 | true exactly when some tactic is common to both; `CreditMeaning.TacticsOfIff` says which those are |
| `CreditMeaning.TacticsOfIff` | agent/cmd/attack-scorer/tactics.go:193-205 | the tactics of a technique, however it is written, are those the table has for the part of it before the dot |
| `CreditMeaning.SharesIff` | agent/cmd/attack-scorer/tactics.go:203-245 | an id and the technique of a run share a tactic exactly when the table puts their parts before the dot under a common one |
| `CreditMeaning.SameIff` | agent/cmd/attack-scorer/tactics.go:207-232 | an id is the same as the technique of a run, however that is written, exactly when they are equal or one is the other before the dot |
| `Attribution.AlertTechniques` | agent/cmd/attack-scorer/main.go:92-105 | the ids of an alert, the field before the tags |
| `CreditMeaning.TechniquesAreSaid` | agent/cmd/attack-scorer/main.go:92-105 | the ids of an alert are exactly those its mapped technique and its tags say, in that order |
| `Attribution.Categorise` | agent/cmd/attack-scorer/main.go:285-294 | technique if some id is the same, else tactic if some id shares one, else none |
| `Attribution.UpdateKeepsScore` | agent/cmd/attack-scorer/main.go:298-313 | folding in one more alert keeps rank the maximum, latency the least delay, blocked the disjunction, and the match the first of the best |
| `Attribution.CreditRuns` | agent/cmd/attack-scorer/main.go:259-315 | one alert against every run |
| `Attribution.Attribute` | agent/cmd/attack-scorer/main.go:253-328 | every run has the score the specification gives; `CreditMeaning.RankMeans` and `CreditMeaning.ResultMeans` say what that is |
| `CreditMeaning.CreditIs` | agent/cmd/attack-scorer/main.go:259-297 | an alert of the agent and in time earns Technique exactly when one of its ids is the technique of the run or one is the other before the dot; Tactic exactly when none is and the table puts one of them and the run, before the dot, under a common tactic |
| `CreditMeaning.RankMeans` | agent/cmd/attack-scorer/main.go:246-328 | the rank of a result: Technique if some alert names the technique, else Tactic if some alert names a tactic of it, else Telemetry if events were counted in the window, else None |
| `CreditMeaning.ResultMeans` | agent/cmd/attack-scorer/main.go:298-315 | blocked exactly when an alert that detects the run holds a marker in any case; the latency is the least delay of those not before the run, else -1; the match is the first of the alerts of the best rank |
| `AttributionLaws.ScoreIsUnique` | agent/cmd/attack-scorer/main.go:253-328 | the specification determines the score |
| `AttributionLaws.OrderDoesNotMatter` | agent/cmd/attack-scorer/main.go:259-315 | rank, latency and blocked depend only on which alerts there are |
| `AttributionLaws.ResultsGrow` | agent/cmd/attack-scorer/main.go:279-326 | more alerts, a larger window, more events seen: no rank falls, no latency rises or is lost, nothing blocked becomes unblocked |
| `AttributionLaws.RanksGiven` | agent/cmd/attack-scorer/main.go:285-326 | rank General is never given; blocked, latency and match imply rank Tactic at least |
| `AttributionLaws.CreditIsShared` | agent/cmd/attack-scorer/main.go:279-315 | two runs of one technique whose windows hold an alert get the same credit for it |
| `AttributionLaws.NamedAloneIff` | agent/cmd/attack-scorer/main.go:250-284 | of two runs of one technique: some alert that names it alone is credited to both exactly when the later start is not after the earlier end and the window |
| `AttributionLaws.NamedTogetherIff` | agent/cmd/attack-scorer/main.go:274-284 | of any two runs: some alert with several techniques is credited to both exactly when the runs, widened by the window on both sides, overlap |
| `AttributionLaws.DetectedTogetherIff` | agent/cmd/attack-scorer/main.go:250-315 | the same of what is returned: some alert of that one technique detects both runs exactly when they overlap |
| `AttributionLaws.OneRunEachIff` | agent/cmd/attack-scorer/main.go:250-328 | over a whole log of runs: no alert at all detects two of them, as point 2 of the comment has it, exactly when no two of them, widened, overlap |
| `Chains.ScoreChains` | agent/cmd/attack-scorer/main.go:544-580 | one chain for each scenario in order of first appearance, with the counts and the first hit of its results |
| `Chains.ScenariosAreDistinct` | agent/cmd/attack-scorer/main.go:545-557 | the scenarios listed are exactly the non-empty ones, each once |
| `Chains.ScenariosInOrder` | agent/cmd/attack-scorer/main.go:545-557 | they stand in the order in which they first appear |
| `Chains.ChainByRank` | agent/cmd/attack-scorer/main.go:558-578 | the counts of a chain by the ranks given: Attributed those of rank Technique, Detected those and Tactic, Visible those and Telemetry, Steps those and None; and Steps are those blocked and those not |
| `Chains.ChainCounts` | agent/cmd/attack-scorer/main.go:559-575 | Attributed <= Detected <= Visible <= Steps, at least one step, broken exactly when something was detected |
| `Chains.PreventedIsDetected` | agent/cmd/attack-scorer/main.go:576-577 | on scored results Protected <= Detected |
| `Chains.FirstHitIsEarliest` | agent/cmd/attack-scorer/main.go:563-569 | broken exactly when there is an earliest detected step; the first hit is its test name, or its technique where that is empty |
| `Chains.StepsAddUp` | agent/cmd/attack-scorer/main.go:558-559 | the steps of the chains sum to the results that have a scenario |
| `Scorecard.Summarize` | agent/cmd/attack-scorer/regression.go:22-36 | the counts of results at each rank |
| `Scorecard.DetectedIsTactic` | agent/cmd/attack-scorer/main.go:610-616 | on scored results counting from General and from Tactic agree, and analysed <= detected <= visible |
| `Scorecard.CountsByRank` | agent/cmd/attack-scorer/regression.go:22-36 | on scored results: analysed are those of rank Technique, detected those and Tactic, visible those and Telemetry, and all are those and None |
| `Scorecard.CountsGrow` | agent/cmd/attack-scorer/regression.go:22-36 | more alerts, a larger window, more events: no count falls |
| `Scorecard.WriteCard` | agent/cmd/attack-scorer/main.go:656-680 | the header and a row for each result |
| `Scorecard.RowUnderHeader` | agent/cmd/attack-scorer/main.go:664-678 | under each title of a card stands what it says |
| `Scorecard.LoadBaseline` | agent/cmd/attack-scorer/regression.go:47-91 | too few rows, no rank column, or the counts over the first rank column |
| `Scorecard.CountRows` | agent/cmd/attack-scorer/regression.go:71-89 | rows too short or without a number in the column are passed over |
| `Scorecard.CellsAreTrimmed` | agent/cmd/attack-scorer/regression.go:61-77 | in any card, space around the title of the rank column and around a rank does not count, nor does the case of the title |
| `Decimal.AtoiSigned` | agent/cmd/attack-scorer/regression.go:74 | a number is read with either sign or none, as far as 64 bits hold it |
| `Scorecard.CardReadsBack` | agent/cmd/attack-scorer/regression.go:45-91 | counting the rows of a written card gives the counts of its results |
| `Scorecard.BaselineReadsBack` | agent/cmd/attack-scorer/regression.go:45-91 | a written card has its rank column where it is looked for, and reads back as its counts unless it has no results |
| `Scorecard.CheckRegression` | agent/cmd/attack-scorer/regression.go:95-117 | regressed exactly when one of the three rates fell by more than the tolerance |
| `Scorecard.RegressesAcross` | agent/cmd/attack-scorer/regression.go:38-117 | whatever the two numbers of runs, none included: exactly when one of three counts fell by more than the tolerance over a common denominator |
| `Scorecard.RegressesIff` | agent/cmd/attack-scorer/regression.go:95-117 | over the same number of runs: exactly when the runs lost are more than that percentage |
| `Scorecard.StrictGateIff` | agent/cmd/attack-scorer/regression.go:95-117 | without tolerance the gate stops exactly the cards that are worse in some count |
| `Scorecard.NoWorsePasses` | agent/cmd/attack-scorer/regression.go:95-117 | a card no worse than the baseline passes for every tolerance that is not negative; so a run passes against its own card |
| `Scorecard.MoreSeenPasses` | agent/cmd/attack-scorer/regression.go:95-117 | scoring with more alerts, a larger window or more events never regresses |
| `Scorecard.Gate` | agent/cmd/attack-scorer/main.go:214-237 | card written to its file, then the baseline file read, then the rates compared: the files and the ending of the specification |
| `Scorecard.EndingWithoutCard` | agent/cmd/attack-scorer/main.go:224-228 | without a name nothing is compared; a file that is not there, other than the card just written, cannot be read |
| `Scorecard.EarlierCardDecides` | agent/cmd/attack-scorer/main.go:218-236 | with two names the ending is the comparison with the earlier card |
| `Scorecard.OwnCardDecides` | agent/cmd/attack-scorer/main.go:218-236 | with one name for both the ending depends on the tolerance alone |
| `Scorecard.OneNameAgreesIff` | agent/cmd/attack-scorer/main.go:218-236 | one name and two give the same ending exactly when the earlier card would have decided as the tolerance alone does |
| `AlertGate.Gate.Allow` | agent/cmd/agent/localalert.go:43-49 | lets a reading through exactly when none is remembered or the gap has passed, and remembers only those |
| `AlertGate.Gate.NoteAnomaly` | agent/cmd/agent/localalert.go:56-67 | urgent exactly when the score is an alert and the gate lets it through |
| `AlertGate.RateBound` | agent/cmd/agent/localalert.go:41-49 | k readings let through span at least k - 1 gaps, for all readings but the zero time, monotone or not |
| `AlertGate.NeverRefusedAfterGap` | agent/cmd/agent/localalert.go:41-49 | a reading a gap after the last one let through is let through |
| `AlertGate.SpacingSurvivesIff` | agent/cmd/agent/localalert.go:43-49 | of the gate alone: the spacing survives every next reading exactly when the last one let through is not the zero time |
| `Aggregator.Aggregator.Flush` | agent/cmd/agent/main.go:1178-1400 | nothing when nothing is held; otherwise one batch with all that is held and the next number |
| `Aggregator.Aggregator.Receive` | agent/cmd/agent/main.go:1408-1478 | the new state for every kind of event; a batch is sent exactly when the event fills it, or is a process, a file or a connection scored as an alert that the gate lets through, and the event is in it |
| `Aggregator.Aggregator.OnTick` | agent/cmd/agent/main.go:1480-1482 | everything held is sent |
| `Aggregator.ReceiveKeepsGood` | agent/cmd/agent/main.go:1408-1478 | receiving keeps conservation, numbering and sizes |
| `Aggregator.BatchOfKind` | agent/cmd/agent/main.go:1190-1392 | the events of a kind in a batch are those collected, in order |
| `Aggregator.SentKindByKind` | agent/cmd/agent/main.go:1190-1392 | a batch is sent kind by kind, processes first and scripts last |
| `Aggregator.RunAggregator` | agent/cmd/agent/main.go:1402-1484 | over every sequence of inputs: per kind, what was sent followed by what is held is what was received, in order; batches hold 1 to 10000 events and are numbered 1, 2, 3, ...; nothing is held after the end; and there are at most events / 10000 + ticks + urgent sends let through + 1 batches |
| `Aggregator.ConservedIsExactlyOnce` | agent/cmd/agent/main.go:1402-1484 | so every event is sent or held exactly once |
| `MemoryFindings.Suppressor.Filter` | agent/cmd/agent/memscan.go:165-178 | the new findings in order, the number suppressed making up the rest, and the keys of this cycle remembered |
| `MemoryFindings.ScanCycles` | agent/cmd/agent/memscan.go:299-360 | cycle after cycle with one suppressor |
| `MemoryFindings.ReportedIff` | agent/cmd/agent/memscan.go:108-178 | a finding is reported in a cycle exactly when it is in it and the one before had none with the same process, name, address, size, rights and match |
| `MemoryFindings.NewAppend` | agent/cmd/agent/memscan.go:165-178 | findings are reported in the order in which they were found, each as often |
| `MemoryFindings.NewOne` | agent/cmd/agent/memscan.go:165-178 | a finding of a region that was seen is left out, any other is kept as it is |
| `MemoryFindings.ReportedOncePerPresence` | agent/cmd/agent/memscan.go:138-178 | with distinct keys in each cycle, a region is reported as often as it has maximal intervals of presence |
| `MarkdownRow.UncellCell` | scripts/handover_timeouts.py:149-154 | an escaped cell reads back |
| `MarkdownRow.BarsAreEscaped` | scripts/handover_timeouts.py:149-150 | escaping puts a backslash before every bar and changes nothing else |
| `MarkdownRow.SplitPastCell` | scripts/handover_timeouts.py:157-164 | no bar of an escaped cell splits it |
| `MarkdownRow.SplitRendered` | scripts/handover_timeouts.py:157-177 | a written row splits into its cells, stripped |
| `MarkdownRow.RowComesBackIff` | scripts/handover_timeouts.py:157-177 | a row comes back exactly when no cell has outer white space |
| `MarkdownRow.RowHasTotalIff` | scripts/handover_timeouts.py:66 | a written row matches the total line exactly when one of its cells does |
| `MarkdownRow.SubRow` | scripts/handover_timeouts.py:149-177 | replacing the totals in a written row is writing the row of the cells with their totals replaced |
| `MarkdownRow.RowIsOneLine` | scripts/handover_timeouts.py:167-177 | a written row is one line exactly when its cells are |
| `TotalLine.TotalMatches` | scripts/handover_timeouts.py:256-259 | the total line as written is matched whole |
| `TotalLine.MatchAtIff` | scripts/handover_timeouts.py:66 | the pattern matches the front of a text exactly where it begins with the words of the total line around three numbers of at least one digit, and matches all of those |
| `TotalLine.TotalNumbers` | scripts/handover_timeouts.py:234-235 | the numbers in it are those written |
| `TotalLine.SubAgain` | scripts/handover_timeouts.py:256-259 | of two substitutions of totals only the last counts |
| `TotalLine.SearchAfterSub` | scripts/handover_timeouts.py:234-259 | after substitution the first match is the total written, if there was a match |
| `TextLines.SplitJoin` | scripts/handover_timeouts.py:209 | joining lines and splitting again gives the lines |
| `TextLines.SplitIsLines` | scripts/handover_timeouts.py:209 | splitting a text gives single lines that join to it |
| `HandoverShape.LocateIs` | scripts/handover_timeouts.py:180-199 | what finding a heading and its table gives, both directions |
| `HandoverDoc.KindByFront` | scripts/handover_timeouts.py:66-68 | a line is the heading of a table exactly when it begins with the title and no word character follows; a heading when it begins with #, a table line when with | |
| `HandoverShape.LocateResized` | scripts/handover_timeouts.py:246-254 | replacing one table moves the other headings and tables and changes nothing else about them |
| `HandoverShape.SharedIffAdjacent` | scripts/handover_timeouts.py:180-192 | two headings have the same table exactly when one stands right under the other |
| `HandoverDoc.JobRowComesBackIff` | scripts/handover_timeouts.py:167-219 | a job row comes back exactly when its cells are trimmed and its minutes not negative; reading it raises exactly when they have more digits than `int` takes |
| `HandoverDoc.StepRowComesBackIff` | scripts/handover_timeouts.py:173-232 | the same for a step row |
| `HandoverDoc.CellsRead` | scripts/handover_timeouts.py:213-232 | how a row of any cells is read: a job from three cells on, a step from four on, or from exactly three with ten minutes |
| `HandoverRoundTrip.TextAfterOwn` | scripts/handover_timeouts.py:246-254 | the table of the heading just written is the one written |
| `HandoverRoundTrip.TextAfterOther` | scripts/handover_timeouts.py:246-254 | the other table is untouched unless both headings share one |
| `HandoverTheorems.HeadingsCount` | scripts/handover_timeouts.py:239-254 | in the document written the first heading of the jobs reads as the number of jobs, and the first of the steps as the number of steps |
| `HandoverTheorems.HeadingsStay` | scripts/handover_timeouts.py:239-259 | a document written has exactly the headings that were there |
| `HandoverTheorems.OthersStay` | scripts/handover_timeouts.py:239-259 | every line that is no such heading and in no such table is still there, in order, with the totals in it replaced, and there are no others |
| `HandoverRoundTrip.TotalsAfter` | scripts/handover_timeouts.py:246-254 | rewriting loses exactly the totals that stood where it wrote |
| `HandoverRoundTrip.SubKeepsKind` | scripts/handover_timeouts.py:256-259 | substituting totals leaves headings headings and table lines table lines |
| `HandoverTheorems.RoundTrip` | scripts/handover_timeouts.py:202-259 | on a ready document, rows that fit can be written, and reading gives exactly the jobs, the steps and the totals |
| `HandoverTheorems.NotReadyLosesRows` | scripts/handover_timeouts.py:202-259 | on any other document there are rows a table can carry that are not read back |
| `HandoverTheorems.RoundTripIff` | scripts/handover_timeouts.py:202-259 | everything that fits is read back exactly when the document is ready |
| `HandoverRows.ReadyRowsIff` | scripts/handover_timeouts.py:202-259 | on a ready document the rows come back exactly when every cell is on one line and is itself once the totals in it are replaced and it is stripped, no minutes are negative, and no number is longer than `str` writes |
| `HandoverRows.ReadsAs` | scripts/handover_timeouts.py:202-259 | on a ready document writing raises exactly on numbers that are too long, and otherwise this is what rows on one line read as |
| `HandoverTheorems.WrittenDoesNotRaise` | scripts/handover_timeouts.py:206-259 | reading a document that was written never raises, whatever stood in it before |
| `HandoverTheorems.AdjacentHeadingsMixUp` | scripts/handover_timeouts.py:180-259 | with one heading right under the other, every job comes back as a ten-minute step |
| `HandoverTheorems.AdjacentHeadingsExist` | scripts/handover_timeouts.py:180-192 | such a document exists |
| `HandoverTheorems.ApplyIsIdempotent` | scripts/handover_timeouts.py:239-259 | writing twice is writing once, on any document that can be written |
| `HandoverLoops.FindHeading` | scripts/handover_timeouts.py:195-199 | the first line of the heading, or -1 |
| `HandoverLoops.TableAt` | scripts/handover_timeouts.py:180-192 | the table from a line on, or (-1, -1) |
| `HandoverLoops.RowsUnder` | scripts/handover_timeouts.py:213-232 | the rows under a heading without the two header lines |
| `HandoverLoops.ReadDoc` | scripts/handover_timeouts.py:202-236 | equals the specification of reading; raises exactly on minutes that pass for digits and `int` refuses, and on a number of the total that it refuses |
| `HandoverRaises.OneJobRaisesIff` | scripts/handover_timeouts.py:202-219 | a table of one job whose minutes pass for digits raises exactly when `int` does not take them |
| `HandoverRaises.OtherDigitRaises` | scripts/handover_timeouts.py:218-219 | so it raises on every digit that is not decimal |
| `HandoverRaises.SquaredRaises` | scripts/handover_timeouts.py:218-219 | such as the superscript two |
| `HandoverRaises.LongMinutesRaiseIff` | scripts/handover_timeouts.py:218-219 | of minutes in plain digits, on exactly those of more than 4300 digits |
| `HandoverRaises.LongTotalRaisesIff` | scripts/handover_timeouts.py:234-235 | and on a total exactly when one of its numbers is longer than that |
| `HandoverLoops.Round` | scripts/handover_timeouts.py:243-254 | one round of the loop; a number too long to be written raises where there is a table to write |
| `HandoverLoops.WriteDoc` | scripts/handover_timeouts.py:239-259 | equals the specification of writing, its exception included; `HandoverTheorems.HeadingsCount`, `HandoverTheorems.OthersStay` and the round trip say what is written |
| `HandoverLoops.Differences` | scripts/handover_timeouts.py:442-457 | nothing to say exactly when the sets of rows agree and the totals are right |
| `HandoverLoops.IsListed` | scripts/handover_timeouts.py:442-457 | which differences are listed, for each sort of them |
| `HandoverLoops.NothingToSayAfterApply` | scripts/handover_timeouts.py:239-457 | nothing to say after writing on a ready document |
| `HandoverLoops.DuplicateRowPasses` | scripts/handover_timeouts.py:444-446 | a row written down twice is not noticed |
| `LineInsertion.SortedDownSorts` | scripts/handover_timeouts.py:416 | the descending sort orders the insertions and keeps them all |
| `LineInsertion.CollectedInAnyOrder` | scripts/handover_timeouts.py:416 | the order in which they were collected makes no difference |
| `LineInsertion.WovenOneMore` | scripts/handover_timeouts.py:416-417 | inserting at an anchor no later than the others is putting the line right after that original line |
| `LineInsertion.WovenErases` | scripts/handover_timeouts.py:416-417 | taking the new lines out gives the file back |
| `LineInsertion.WovenParts` | scripts/handover_timeouts.py:416-417 | right after each line of the file come the lines that go there, and then the rest of the file |
| `LineInsertion.LinesAtAnchor` | scripts/handover_timeouts.py:416-417 | the lines at one place are those to go there, each as often as it was to be put in, in ascending order |
| `LineInsertion.InsertLines` | scripts/handover_timeouts.py:416-417 | inserting back to front is inserting everywhere at once |

## Left out

- FleetAllocation.AllocateFleet: integers do not overflow, nor does a share converted to one.
- FleetFairness.NoFleetIsFairer: while the products of hosts and weights stay below 2^53 (`FleetFairness.Modest`); beyond that doubles do not hold them, and what the loops then compute is specified but nothing more is said of it.
- FleetFairness.QuotaHolds: as NoFleetIsFairer.
- FleetFairness.AllocationRoundsLargest: as NoFleetIsFairer.
- FleetFairness.AllocationCensus: as NoFleetIsFairer.
- FleetFairness.SharesAreServed: as NoFleetIsFairer.
- JournalRuns.CrashSafety: process death is modelled, not power loss, since the files themselves are not synchronised; the temporary file of the journal is not part of the disk.
- JournalRuns.CrashSafety: runs with a signal or the exit hook between the assignment of `_pending` and the journal are excluded, because the claim is false of them (JournalRuns.WindowLosesFileIff).
- JournalRuns.CrashSafety: a journal file that cannot be read or parsed, and errors of the file system other than an exception at a step, are not modelled.
- Harness.Harness.Run: printing, the test command itself (a function of the tree), the filtering of `-run` names, the removal of compiled files and two harnesses on one journal are left out.
- AttributionLaws.OneRunEachIff: of a window that is not negative and runs whose technique is a technique id.
- Attribution.Attribute: times are integers, letters are raised and lowered in the ASCII range, and the event count of the server is a parameter.
- AttributionLaws.ResultsGrow: assumes that the event count says "some" for a larger interval whenever it does for a smaller one.
- Scorecard.WriteCard: works on rows; quoting of CSV and the format of seconds (a parameter) are left out, and rates are exact.
- Scorecard.LoadBaseline: what the CSV reader itself refuses, such as rows of uneven length, is left out.
- Scorecard.Gate: a file is its name, so two names for one file are two files; a file that cannot be written is left out.
- Scorecard.CheckRegression: the report text is left out.
- Sampling.Validate: which message is given is left out.
- Sampling.KindInProportion: of the draws on which nothing is rounded; how far rounding moves the ends of the interval is left out.
- Sampling.NeverSilentIff: of whole rates, since in doubles a rate that is tiny beside the others may be picked on no draw.
- Sampling.Generator.Next: an event is the spec it is made from; of its fields only what is in GeneratedValues, HostAddress and Expansion is modelled, process ids are left out.
- Sampling.PickWeighted: the sum of the weights does not overflow.
- GeneratedValues.AnswerIsStable: letters are lowered in the ASCII range.
- Templates.TemplateIsFilled: of texts without braces; what texts with braces can leave behind is in ExpansionLeftovers and GeneratorTexts.
- Expansion.Expand: the random source and the clock are functions of the number of the draw; a date is any number in decimal.
- SendLoop.RunFleet: a turn of a host is one step (the counters are atomic and the tally is under a lock); reuse of the slice behind the pending events, connections, heartbeats and the wait for the server are left out.
- Aggregator.RunAggregator: an event is its kind and an opaque body; conversion to the wire, cleaning of strings, scoring (a flag of the input), the process parents and the buffer of the client behind a failed send are left out, and sequence numbers do not wrap.
- AlertGate.RateBound: durations do not saturate.
- MemoryFindings.ReportedOncePerPresence: a cycle that has one key twice is excluded, since it reports both findings; MemoryFindings.ReportedIff covers it.
- HandoverLoops.Differences: the order and wording of the list are left out.
- LineInsertion.InsertLines: only the insertion loop of `restore`; reading YAML and finding the anchors is left out.
- HostAddress.HostAddr: reading the CIDR text and IPv4 addresses written as IPv6 are left out.
- Median, the process-id table, the canceller of file scans, key generation, gRPC, HTTP, enrolment and the whole of the frontend and server.

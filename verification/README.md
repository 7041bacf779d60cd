# Reverse traceroute: a model and its proofs

These Dafny modules model the parts of the reverse traceroute system whose correctness is hardest to see
from the code, and prove what those parts are for. The whole project is checked with
`dafny verify dfyconfig.toml`.

**The search** (`Hops`, `Segments`, `Search`, `Trim`, `Roots`, `Background`, `Schedule`, `ReversePath`,
`ReverseTraceroute`, `Candidates`, `Moves`, `Answers`, `Driver`, `DriverLaws`, `Runner`, `LoopErasure`,
`LoopFreedom`, `ErrorWitness`, `SpliceWitness`). A measurement keeps a
stack of partial paths back from a destination, extends the one on top by probing, assumes symmetry where
probing fails, and backs off from dead ends. `Segments`, `Search`, `Trim` and `Schedule` say what the
operations do to values and prove the properties of whole searches; `ReversePath`, `Background`,
`ReverseTraceroute`, `Candidates` and `Moves` are the objects that are changed in place, with shared arrays
and deep copies, and are proved against those values. `Answers` says what a run is: a list of stacks, each
brought from the one before by a later answer of the network in a named way, and an ending for a stated reason.
`Driver` is the state machine that drives the search: what it does with each answer, at each place. `Runner` is
that machine on the objects; it returns a log in which no answer is left out, and the stacks of a log are a run.
The main results are that every search ends whatever the network answers, that a search without a
loop-removal error never gives up its source and never reaches the panic after a refused growth, that
asking only the top path whether it reaches is enough, that no operation changes a path stacked before, what a
spliced traceroute comes to in every state of every run, when the path returned is free of loops, that no usable
hop of an answer is passed over, and that no path is given up while a hop of its last segment can be probed, unless
it was found by spoofed probes, which the driver follows up by timestamps only.

**Spoofed probes** (`SpoofDelivery`, `SpoofRegistry`). The controller's delivery of answers to groups of
expected ids, as atomic steps on a map, countdowns and buffered channels, in any interleaving; and the
timed table at a measurement host.

**The result codec** (`UUCodec`, and `WartsFlags`, `WartsBytes`, `WartsAddress`, `WartsRecords`,
`WartsParse`, `WartsReader`, `WartsCuts`, `WartsSamples`, `PingStats`). Only readers of the warts format exist in
the repository; the writers here are specification functions, and the readers are proved to invert them; `WartsSamples` says byte
by byte what the readers make of a record of each kind with all its flags set. Fields of a warts
record are kept in a map by flag number instead of a struct with a name for each.

**Leases** (`Leasing`, `LeaseWalk`). The atlas server's table of sources being traced from, and a caller reading
the list it was given while another call sorts it.

## Where the code departs from what it is meant to do

* `AddBackgroundTRSegment` deletes a whole segment by storing nil in the slot it has just moved the next one
  into. That is harmless on every run: each path grew from one below it (`Roots.MoveKeepsRoots`), so a traceroute
  meets the first path it meets in its last segment (`Roots.MeetsInLast`), and no whole segment is ever cut off.
  But the cut within that segment goes by literal address, although the intersection was found by cluster. It can
  leave the wrong hop (`SpliceWitness.WrongHopLeft`) or run past the end and panic (`SpliceWitness.CutPanics`).
  `Roots.CutInLast` says exactly when.
* The driver panics with "That's not possible" when a traceroute is not added. It is possible, without any
  error before: a silent hop on the path and one in the traceroute are enough (`SpliceWitness.NothingAdded`).
  `Answers.SpliceEnds` says exactly when.
* `AddSegments` returns false after a loop-removal error even if it has stacked paths, one of which may
  reach. Callers then treat the source as a dead end, and a later growth can be refused, which panics.
  `ErrorWitness.UnsafeAfterError` is such a run, on a script of answers in the order the driver asks for
  them. Termination is proved for these runs too; without such an error the panic is unreachable.
* Growing a symmetric segment removes no loops and can make one (`LoopFreedom.GrowthLoops`);
  `LoopFreedom.GrowthLoopFreeIff` says exactly when it does not, and `LoopFreedom.MeasurementTidyIff` that this is
  the only way a loop gets into a measurement.
* Two symmetric segments, and two that reach in different hops, compare as greater both ways
  (`Segments.GreaterBothWays`). `AddSegments` only ever gets one symmetric segment at a time. As for the others,
  `sort.Sort` promises no order between neighbours under such a comparator; see below for what is assumed of it.
* `uuencodeLine` fills a last group of one byte from a padded copy that is one zero short, and reads the
  missing one past its end, from memory that is zero.
* A timestamp request's address list is read after as many zero addresses (`WartsRecords.Meant`), so it
  comes out twice as long as it was sent.
* `Parse` takes a plain end-of-file error from inside a record for the end of the records, and returns what
  it has so far without an error. `WartsCuts.SilentCut` lists the bytes where a record can be cut off so, from
  its layout, `WartsCuts.ListCut` those where a list comes back without its last strings, and
  `WartsCuts.FileCutOff` proves that a file cut off anywhere else is an error.
* The source and destination ids of a traceroute refer to addresses of the record, but are read before any of
  them (`WartsParse.TracerouteIdsUnknown`).
* A request for sources that names one twice can be given one that is already running
  (`Leasing.GrantedTwice`, and exactly then: `Leasing.FreshExactly`).
* Spoof ids are counted in 32 bits; one that comes back before the cleanup of its first group is lost to the
  second (`SpoofDelivery.ReusedTooEarly`), exactly if neither was answered nor cleaned up otherwise before
  (`SpoofDelivery.ReuseExactly`).
* `fillAtlas` walks the list of sources it was given without the lock, and the first request's list is also the
  table's, which the next request sorts in place. The walk can read one source twice and miss another
  (`LeaseWalk.SourceMissed`); it visits each exactly if `LeaseWalk.VisitsEachExactly` says so.
* When the rate limiter refuses a burst `fillAtlas` keeps its sources for ever (`Leasing.Leases.FillAtlas`).

## How parts outside the model stand in it

* `ClusterMap.Get` is a total function on hops. Hops are strings, `0.0.0.0` the silent one.
* What the network, the atlas, the vantage point service and the adjacency service answer is a parameter:
  a script with one entry for each time something is asked. The addresses in it come from a finite set.
* `sort.Sort` sorts the candidates that do not reach, which its comparator orders, and puts none of them directly
  after one that does. Only that much is used, and runs allow every such order. The insertion sort that stands in
  for it in the code leaves no two neighbours the wrong way round. On numbers, in `Leasing`, it is the sorted list.
* Iterating over a map takes its keys in any order.
* Times are numbers. Bytes are numbers below 256; the or of shifted bytes is their sum, the bits being
  disjoint, and a bit test is a repeated halving. Eight-, sixteen-, thirty-two- and sixty-four-bit
  arithmetic is written out where it can wrap.

## Model

| member | source | states |
|---|---|---|
| Hops.Union | util/string/string_utils.go:15-42 | what both lists hold, once each, the name of the direct probe first: an intersection, whatever its name |
| Hops.IndexOf | util/string/string_utils.go:106-113 | gives the first position of a string, -1 exactly when there is none |
| Hops.OrderHopsAntisymmetric | util/string/string_utils.go:56-70 | exchanging the lists turns the result round, and only equal lists compare as equal |
| Hops.OrderHopsTransitive | util/string/string_utils.go:56-70 | the order on lists, first by length, is transitive |
| Hops.CompareIsLexicographic | util/string/string_utils.go:63-68 | less exactly if the first character that differs is, or the first string is a proper prefix |
| Hops.OrderHopsIsLexicographic | util/string/string_utils.go:56-70 | less exactly if shorter, or as long and the first hop that differs is less |
| Segments.LessIsBelow | revtr/reverse_traceroute/segments.go:175-211 | on candidates for one source, none symmetric, the comparator is the reference order: reaching above not reaching, then number of answering hops, last hop, whole list |
| Segments.LessAsymmetric | revtr/reverse_traceroute/segments.go:175-211 | no two candidates are each less than the other |
| Segments.LessStrict | revtr/reverse_traceroute/segments.go:175-211 | no candidate is less than itself, and not both of two are less than the other |
| Segments.LessTransitive | revtr/reverse_traceroute/segments.go:175-211 | less is transitive on comparable candidates |
| Segments.LessTotal | revtr/reverse_traceroute/segments.go:175-211 | two candidates with different hops, not both reaching, are ordered one way or the other |
| Segments.GreaterBothWays | revtr/reverse_traceroute/segments.go:175-211 | two segments of one source, both symmetric or neither, compare as greater both ways exactly if both are symmetric or both reach in different hops |
| Segments.NonNullCounts | revtr/reverse_traceroute/segments.go:147-158 | the length without silent hops is the number of hops less that of the silent address |
| Segments.InOrderSorted | revtr/reverse_traceroute/segments.go:175-211 | a list whose neighbours are not the wrong way round has its candidates that do not reach sorted, and none of them after one that does |
| Segments.BetterOnTop | revtr/reverse_traceroute/segments.go:199-210 | in sorted order no candidate before one that does not reach is better: more hops answered, or as many and a greater last hop |
| Segments.ReachingOnTop | revtr/reverse_traceroute/segments.go:175-211 | if no candidate that does not reach comes directly after one that does, everything after a reaching candidate reaches |
| Segments.KeptLongest | revtr/reverse_traceroute/segments.go:84-126 | loop removal keeps exactly the longest suffix with no hop in the cluster of a nonzero hop common to segment and path |
| Segments.KeptSuffix | revtr/reverse_traceroute/segments.go:95-126 | what is kept is a suffix with the same last hop |
| Segments.KeptDisjoint | revtr/reverse_traceroute/segments.go:95-126 | what is kept meets the path at most in the silent address, and an error is reported exactly when that is on both sides |
| Segments.SelectionUnique | revtr/reverse_traceroute/segments.go:293-319 | the promise of ndsrsSelectNonzeroHops fixes its result |
| Segments.CountExactly | revtr/reverse_traceroute/segments.go:293-319 | what is counted are the hops that answered and are not to be ignored |
| Segments.BackwardsAt | revtr/reverse_traceroute/segments.go:321-350 | the way back is the traceroute turned round, without its own end |
| Segments.SelectNonzeroHops | revtr/reverse_traceroute/segments.go:293-319 | gives the shortest prefix with so many eligible hops, or the whole list up to its last answering hop when there are fewer |
| Search.PushedFrom | revtr/reverse_traceroute/revese_traceroute.go:323-349 | each stacked path is the current one with what loop removal left of some live candidate on top |
| Search.PushedComplete | revtr/reverse_traceroute/revese_traceroute.go:323-349 | without an error every candidate that is live and keeps a hop is stacked |
| Search.PushErrs | revtr/reverse_traceroute/revese_traceroute.go:329-333 | an error occurs exactly when a live candidate still brings the silent address to a path holding it |
| Search.ReachingPushedOnTop | revtr/reverse_traceroute/revese_traceroute.go:232-250 | if any path stacked by one call reaches, the last one does, which is what Reaches relies on |
| Search.TopIsBest | revtr/reverse_traceroute/revese_traceroute.go:320-349 | if nothing reaches, the path on top comes from a candidate than which none that could be used is better: the search goes on from the most hops answered |
| Search.PopDeadExact | revtr/reverse_traceroute/revese_traceroute.go:269-287 | backing off pops exactly the dead ends above the first path worth another try |
| Search.FirstPathFails | revtr/reverse_traceroute/revese_traceroute.go:252-287 | giving up the first path makes the destination a dead end; it stays only if the search is to give up then |
| Search.GrowEnds | revtr/reverse_traceroute/segments.go:293-350 | a grown segment ends in an eligible hop, or is the whole way back and ends in the source |
| Search.DepthBound | revtr/reverse_traceroute/revese_traceroute.go:289-349 | the current path has no more segments than there are addresses, since all but at most one bring an address of their own |
| Search.MoveKeepsInv | revtr/reverse_traceroute/revese_traceroute.go:269-349 | extending, growing and backing off each keep the search invariant |
| Search.MoveLowers | revtr/reverse_traceroute/revese_traceroute.go:269-349 | each move lowers the lexicographic measure: hops not yet dead, room above the current path, forward hops not yet assumed |
| Search.SearchTerminates | revtr/reverse_traceroute/revese_traceroute.go:269-349 | no infinite sequence of moves exists, loop-removal errors or not |
| Search.ExtendsLoopFree | revtr/reverse_traceroute/revese_traceroute.go:323-349 | one stacked path: a candidate without repeated answering hops on a path without any gives a path without any |
| Search.ExtendsSilentOnce | revtr/reverse_traceroute/revese_traceroute.go:323-349 | one stacked path: the silent address stays within one of its segments |
| LoopFreedom.PushedTidy | revtr/reverse_traceroute/revese_traceroute.go:320-349 | whatever a call of AddSegments stacks on a path without repeated answering hops, and with the silent address in one segment at most, is such a path too |
| LoopFreedom.ExtendKeepsTidy | revtr/reverse_traceroute/revese_traceroute.go:320-349 | so a call keeps the whole stack so |
| LoopFreedom.TriedLoopFree | revtr/runner/revtr_runner.go:226-275 | the candidates made of an answer without loops have none |
| LoopFreedom.ErasedLoopFree | revtr/runner/revtr_runner.go:1372-1394 | what processRR leaves of a record route repeats no hop |
| LoopFreedom.RunTidyIff | revtr/reverse_traceroute/revese_traceroute.go:269-349 | on answers without loops, every stacked path of a run is so exactly if each of its growths fits: no hop back that comes with it is on the path below |
| LoopFreedom.MeasurementTidyIff | revtr/reverse_traceroute/revese_traceroute.go:269-349 | in particular for a whole measurement, to the path it returns: reached by candidates, by a spliced traceroute or by a growth, given up, or cut short |
| LoopFreedom.EndTidyIff | revtr/runner/revtr_runner.go:151-194 | every ending leaves the stack so, except reaching by a growth that does not fit |
| LoopFreedom.TrimTidy | revtr/reverse_traceroute/revese_traceroute.go:566-587 | trimming a path only leaves hops out, even where it leaves the wrong one |
| LoopFreedom.SpliceKeepsTidy | revtr/reverse_traceroute/revese_traceroute.go:558-617 | splicing in a traceroute without loops keeps the stack so |
| LoopFreedom.GrowthLoopFreeIff | revtr/reverse_traceroute/revese_traceroute.go:289-301 | a grown path repeats no answering hop exactly if each hop of the way back that is on the path below comes only after as many eligible ones as are now assumed |
| LoopFreedom.GrowthTidyIff | revtr/reverse_traceroute/revese_traceroute.go:289-301 | and the silent address stays in one segment as well exactly if the same holds of it |
| LoopFreedom.GrowthLoops | revtr/reverse_traceroute/revese_traceroute.go:289-301 | a path without loops that growing gives one |
| Search.NothingReaches | revtr/reverse_traceroute/revese_traceroute.go:232-250 | a call whose new top does not reach stacks nothing that reaches |
| Search.CleanMoveKeepsClean | revtr/reverse_traceroute/revese_traceroute.go:269-349 | without an error no stacked path reaches after a move and the source is no dead end |
| Search.GrowRefused | revtr/reverse_traceroute/revese_traceroute.go:289-301 | growth is refused exactly when the source is a dead end and the traceroute has no further hop to offer |
| Search.CleanMovesSafe | revtr/runner/revtr_runner.go:755-833 | moves without a loop-removal error lead from a safe state to safe states only |
| Search.CleanRunSafe | revtr/runner/revtr_runner.go:755-833 | on every run without a loop-removal error from a path that does not reach: nothing stacked reaches, the source is no dead end, the current path ends in a live hop or assumes symmetry, and growth is never refused |
| Search.CleanIsSafe | revtr/runner/revtr_runner.go:764-794 | a state with the invariant and a live source never has a growth refused, so the panic after it is unreachable |
| ErrorWitness.IsRunOfScript | revtr/runner/revtr_runner.go:202-300 | the failing run is one of a script of answers: each candidate list is what record route, spoofed probes and a traceroute are answered with |
| ErrorWitness.UnsafeAfterError | revtr/reverse_traceroute/revese_traceroute.go:329-333 | from a path that does not reach, with one loop-removal error, that run ends in the panic after a refused growth |
| Trim.CutExact | revtr/reverse_traceroute/revese_traceroute.go:582-585 | deleting after the literal address leaves the wanted prefix if and only if nothing is deleted, or the last hop wanted is that address, or the address is absent and the last hops are the same as the first |
| Trim.TrimExact | revtr/reverse_traceroute/revese_traceroute.go:566-587 | on any path: the trimming leaves exactly the hops up to and including the intersection if and only if that holds in its segment and at most one segment lies above |
| Trim.PushOne | revtr/reverse_traceroute/revese_traceroute.go:320-349 | a single candidate is stacked exactly when its end is live, not in the cluster of a common answering hop, and the silent address is not left on both sides |
| Roots.MoveKeepsRoots | revtr/reverse_traceroute/revese_traceroute.go:269-349 | every move, also after a loop-removal error, keeps each path of two or more segments above one with the hops of all but its last |
| Roots.MeetsInLast | revtr/reverse_traceroute/revese_traceroute.go:558-575 | so the first path a traceroute meets is met in its last segment, and no whole segment is cut off |
| Roots.CutInLast | revtr/reverse_traceroute/revese_traceroute.go:566-587 | there the cut panics exactly if the traceroute's first address lies behind the hop of its cluster, and leaves the hops up to the intersection exactly as Trim.CutExact says |
| Roots.SpliceRooted | revtr/reverse_traceroute/revese_traceroute.go:558-617 | when the traceroute is added, and when the program panics; then the new top is the path that was cut and a nonempty suffix of the traceroute, everything below is untouched, and it reaches exactly if the traceroute does |
| SpliceWitness.WrongHopLeft | revtr/reverse_traceroute/revese_traceroute.go:582-585 | a run of a script of answers that reaches on a path from which the intersection was deleted and the hop behind it kept |
| SpliceWitness.CutPanics | revtr/reverse_traceroute/revese_traceroute.go:582-585 | one that ends where the deletions run past the end |
| SpliceWitness.NothingAdded | revtr/runner/revtr_runner.go:185-188 | one that ends where the driver panics because a traceroute was not added |
| ReversePath.RevSegment.Clone | revtr/reverse_traceroute/segments.go:56-68 | a copy with an array of its own |
| ReversePath.RevSegment.RemoveAt | revtr/reverse_traceroute/segments.go:52-54 | deletes one hop by shifting within the shared array |
| ReversePath.RevSegment.RemoveHops | revtr/reverse_traceroute/segments.go:95-126 | leaves what loop removal keeps, by moving the window, and reports an error exactly when hops are still shared |
| ReversePath.RevSegment.AddHop | revtr/reverse_traceroute/segments.go:342-350 | assumes one more hop, selected again from the end of the traceroute |
| ReversePath.RIndex | revtr/reverse_traceroute/segments.go:84-93 | the last position in the cluster of a hop |
| ReversePath.Common | revtr/reverse_traceroute/segments.go:96-103 | exactly the answering hops that segment and path share |
| ReversePath.LastShared | revtr/reverse_traceroute/segments.go:103-116 | the last position in the cluster of any common hop |
| ReversePath.ReversePath.Clone | revtr/reverse_traceroute/reverse_path.go:34-44 | no segment and no array is shared, with the original or within the copy |
| ReversePath.ReversePath.Hops | revtr/reverse_traceroute/reverse_path.go:47-59 | all hops, segment by segment |
| ReversePath.ReversePath.Pop | revtr/reverse_traceroute/reverse_path.go:81-86 | drops the last segment |
| ReversePath.ReversePath.Add | revtr/reverse_traceroute/reverse_path.go:103-105 | puts a segment on top |
| Background.CutBack | revtr/reverse_traceroute/revese_traceroute.go:582-585 | the inner loop leaves the hops before the position and the right number from the end, unless it runs out of range |
| Background.DeleteSegment | revtr/reverse_traceroute/revese_traceroute.go:577-581 | deleting a segment is sound exactly if it is the last one |
| Background.CutTurn | revtr/reverse_traceroute/revese_traceroute.go:570-587 | each turn of the trimming loop keeps its counters right and leaves fewer segments, fewer hops, or fewer left to look at |
| Background.CutPath | revtr/reverse_traceroute/revese_traceroute.go:568-587 | the loop ends, on a private copy, with exactly what Trim.TrimPath says |
| Schedule.HandFirst | revtr/reverse_traceroute/revese_traceroute.go:670-679 | the direct probe is handed out alone before every vantage point |
| Schedule.HandLater | revtr/reverse_traceroute/revese_traceroute.go:680-712 | a later batch has five entries, fewer only if none is left; the spoofing source of the segment comes first, whether on the list or not; the others are the next of the list in its order, and the rest stays, without that source |
| Schedule.HandParts | revtr/reverse_traceroute/revese_traceroute.go:680-712 | so the list shrinks, what leaves it is in the batch, nothing of the batch stays, nothing else is in it but the spoofing source |
| Schedule.ServeBounded | revtr/reverse_traceroute/revese_traceroute.go:625-712 | over all calls for a hop every batch is nonempty, distinct and within the limit, and there are no more batches than vantage points |
| Schedule.ServeComplete | revtr/reverse_traceroute/revese_traceroute.go:625-712 | no vantage point is lost |
| Schedule.ServeFrom | revtr/reverse_traceroute/revese_traceroute.go:625-712 | what is handed out is off the list for good and came from it, or is the segment's spoofing source |
| Schedule.ServeOnce | revtr/reverse_traceroute/revese_traceroute.go:680-700 | nobody is handed out twice but the spoofing source of the later call's segment |
| Schedule.ServeInitial | revtr/reverse_traceroute/revese_traceroute.go:530-545 | from a hop's first list on: the direct probe first, alone and once, then at most as many batches as vantage points, until none is left |
| Schedule.HandShrinks | revtr/reverse_traceroute/revese_traceroute.go:670-712 | any call shrinks the target's list, whatever it holds |
| Schedule.CallLowers | revtr/reverse_traceroute/revese_traceroute.go:625-712 | a call that hands out a batch leaves fewer hops uninitialised or fewer vantage points left, so the retry loop ends |
| Schedule.ProbeableExactly | revtr/reverse_traceroute/revese_traceroute.go:644-660 | a hop can be probed while vantage points are left and fewer than ten spoofed probes went unanswered, or any was answered |
| Schedule.InitialisedExactly | revtr/reverse_traceroute/revese_traceroute.go:625-636 | lists there are stay; a hop without one gets one from the first offer for it, the direct probe in front |
| Schedule.ResponsesAdd | revtr/reverse_traceroute/revese_traceroute.go:170-184 | unanswered probes add up for the target alone, until it answers |
| ReverseTraceroute.ReverseTraceroute.constructor | revtr/reverse_traceroute/revese_traceroute.go:125-148 | one path of one segment holding the destination, or the silent address if that is not routable, and no dead ends |
| ReverseTraceroute.ReverseTraceroute.InitializeRRVPs | revtr/reverse_traceroute/revese_traceroute.go:530-545 | the list of one hop is set to the direct probe and the spoofers offered, unless these cannot be had |
| ReverseTraceroute.ReverseTraceroute.GetRRVPs | revtr/reverse_traceroute/revese_traceroute.go:625-712 | hands out the batch of Schedule.Hand for the hop nearest the end that can be probed, and changes no other list |
| ReverseTraceroute.ReverseTraceroute.GetTSAdjacents | revtr/reverse_traceroute/revese_traceroute.go:472-502 | hands out the next adjacent left and takes it off the list, which is fetched once |
| ReverseTraceroute.ReverseTraceroute.Failed | revtr/reverse_traceroute/revese_traceroute.go:253-262 | nothing is left to try |
| ReverseTraceroute.ReverseTraceroute.Reaches | revtr/reverse_traceroute/revese_traceroute.go:233-250 | the last hop of the top path is the source or in its cluster |
| ReverseTraceroute.ReverseTraceroute.FailCurrPath | revtr/reverse_traceroute/revese_traceroute.go:269-287 | marks the top's last hop dead and pops as Search.FailTop says |
| ReverseTraceroute.ReverseTraceroute.AddAndReplaceSegment | revtr/reverse_traceroute/revese_traceroute.go:289-301 | stacks a copy of the top with its last segment replaced unless that ends in a dead end; all paths below keep their hops |
| ReverseTraceroute.ReverseTraceroute.TrySegment | revtr/reverse_traceroute/revese_traceroute.go:323-345 | one candidate is skipped, refused or stacked, and no stacked path changes while loops are cut out of it in place |
| ReverseTraceroute.ReverseTraceroute.AddSegments | revtr/reverse_traceroute/revese_traceroute.go:320-349 | adds exactly the paths of Search.PushAll for the sorted candidates on top of the old stack, whose paths and hops are unchanged |
| ReverseTraceroute.ReverseTraceroute.AddBackgroundTRSegment | revtr/reverse_traceroute/revese_traceroute.go:558-617 | the new stack is the one of Trim.Splice; if nothing is added, or the program panics, the stack is exactly as before |
| Candidates.NewSegment | revtr/reverse_traceroute/segments.go:213-231 | addresses that are not routable become silent |
| Candidates.PrefixSegments | revtr/runner/revtr_runner.go:226-231 | the candidates of an answer are its prefixes ending in an answering hop, although they share one array that is cleaned while they are made |
| Candidates.SpoofedCandidates | revtr/runner/revtr_runner.go:258-275 | the same over all answers of a batch of spoofed probes |
| Moves.Extend | revtr/reverse_traceroute/revese_traceroute.go:320-349 | the stack and the answer are those of one call on some order of the candidates; the invariant is kept and the measure not raised, and lowered if anything was added |
| Moves.Backtrack | revtr/reverse_traceroute/revese_traceroute.go:269-287 | the stack is the one of Search.FailTop; unless that failed, the invariant is kept and the measure lowered |
| Moves.Grow | revtr/runner/revtr_runner.go:764-794 | added exactly if the growth is not refused, and then the stack is the grown one; if it does not reach, the invariant is kept and the measure lowered |
| Answers.RunSafe | revtr/runner/revtr_runner.go:961-980 | a run from a safe state ends in one, unless one of its answers made candidates that met a loop-removal error |
| Answers.EndSafe | revtr/runner/revtr_runner.go:961-980 | then, however it ends, it is not by the panic on growing, and the source is no dead end |
| Answers.RunRooted | revtr/runner/revtr_runner.go:961-980 | in every state of a run each path has the one it grew from below it |
| Answers.SpliceEnds | revtr/runner/revtr_runner.go:185-194 | for every run and every traceroute: which of reaching, the panic in the cut, the panic after nothing was added and the panic after not reaching ends it |
| Driver.NextBrings | revtr/runner/revtr_runner.go:961-980 | between two entries of a log: a change of the stack is a move that the answer taken brings, and an end has its reason in that answer |
| Driver.LogIsRun | revtr/runner/revtr_runner.go:961-980 | the stacks of a log are a run of the search |
| Driver.LogIsOver | revtr/runner/revtr_runner.go:961-980 | of a log that has come to its end, a run that is over |
| DriverLaws.PrefixesExactly | revtr/runner/revtr_runner.go:226-231 | the candidates of a record route are its prefixes that end in an answering hop |
| DriverLaws.SpoofedExactly | revtr/runner/revtr_runner.go:263-275 | of spoofed probes, those of each answer with the vantage point that sent it |
| DriverLaws.DirectUsed | revtr/runner/revtr_runner.go:214-241 | a hop of the direct probe's answer that is no dead end and in no cluster of the path is not passed over: paths of that record route are stacked, and the measurement has reached or goes on from them |
| DriverLaws.SpoofedUsed | revtr/runner/revtr_runner.go:243-299 | nor is one of any answer to spoofed probes; timestamps are next |
| DriverLaws.StampsUsed | revtr/runner/revtr_runner.go:685-702 | nor is a list of hops that timestamps verified |
| DriverLaws.TraceUsed | revtr/runner/revtr_runner.go:755-833 | nor is the first hop back along a traceroute; a path assuming symmetry assumes one more hop unless that is refused |
| DriverLaws.AtlasUsed | revtr/runner/revtr_runner.go:185-194 | a traceroute of the atlas always ends the measurement, as its splice does |
| DriverLaws.ProbingGivenUp | revtr/runner/revtr_runner.go:211-215 | record route goes on to timestamps only when no hop of the last segment can be probed, and a hop has no list only if no vantage points could be had |
| DriverLaws.StampingGivenUp | revtr/runner/revtr_runner.go:325-357 | timestamps are given up only when no adjacent or no spoofer is left |
| DriverLaws.LogProbed | revtr/runner/revtr_runner.go:202-300 | in every log, past record route no hop of the last segment can be probed, unless spoofed probes found it or an error in the loop of timestamps changed it |
| DriverLaws.GivenUpLast | revtr/runner/revtr_runner.go:795-833 | in every log a dead end is made only where assuming symmetry does not help, and after that |
| DriverLaws.LogServes | revtr/reverse_traceroute/revese_traceroute.go:625-712 | over any stretch of a log the batches for a hop are those of Schedule.Serve, so what is proved of them holds of whole measurements |
| DriverLaws.SpoofedCounted | revtr/runner/revtr_runner.go:248-258 | a batch of spoofed probes marks its target as answering, or adds all of them to those unanswered |
| DriverLaws.AnsweredForGood | revtr/reverse_traceroute/revese_traceroute.go:170-184 | a target that answered is never taken for one that does not |
| DriverLaws.StampedOnce | revtr/runner/revtr_runner.go:324-375 | a target tried by way of spoofers is marked and left out the next time |
| DriverLaws.OneProbe | revtr/runner/revtr_runner.go:210-235 | if the direct probe of the destination is answered by an address of the source, the measurement has reached by that hop alone |
| Runner.SpliceIn | revtr/runner/revtr_runner.go:185-194 | the final stack, and whether the run has reached or panics and how, are those of Trim.Splice on the stack it started from |
| Runner.StepTrToSource | revtr/runner/revtr_runner.go:151-194 | with a traceroute, ends the search as the splicing does; without one, goes on to record route; the log says so |
| Runner.TryProbe | revtr/runner/revtr_runner.go:210-299 | one turn of the loop of record route does with its answer what Driver.Probes says; it ends the search, lowers the measure, or leaves fewer tries |
| Runner.StepRecordRoute | revtr/runner/revtr_runner.go:202-300 | the retry loop ends; the log has an entry for every answer taken, each following by Driver.Next, and goes on at timestamps, lower on the measure, or is over |
| Runner.TryStamp | revtr/runner/revtr_runner.go:324-373 | one turn of the loop of timestamps does with its answer what Driver.Stamps says |
| Runner.StepTimestamp | revtr/runner/revtr_runner.go:304-374 | the loop over adjacents ends; the log has an entry for every answer taken, each following by Driver.Next |
| Runner.CheckBackground | revtr/runner/revtr_runner.go:714-753 | a background traceroute ends the run as the splicing does; otherwise nothing changes |
| Runner.StepGrow | revtr/runner/revtr_runner.go:764-794 | panics exactly if the growth is refused, otherwise reaches or goes on with the grown stack, as Driver.Grows says |
| Runner.StepBack | revtr/runner/revtr_runner.go:795-833 | only without a traceroute or when the hop assumed from it cannot be stacked: backs off, and gives up exactly if nothing is left |
| Runner.StepAssumeSymmetric | revtr/runner/revtr_runner.go:755-833 | the step does what Driver.Assumes says, and ends the search or lowers its measure |
| Runner.Run | revtr/runner/revtr_runner.go:961-980 | for every script of answers and from any path the driver ends; the log returned starts at the first stack, each entry follows from the one before by the next answer as Driver.Next says, and it ends with the stack and the memory as they are; its stacks are a run that is over, and without a loop-removal error on it the source is no dead end and growth was never refused |
| Runner.Measure | revtr/runner/revtr_runner.go:132-149 | the same for a whole measurement, from nothing known; the safety half if source and destination are in different clusters |
| LoopErasure.ErasedLoopFree | revtr/runner/revtr_runner.go:1372-1394 | loop erasure keeps hops in order and no two of one cluster |
| LoopErasure.ErasureUnique | revtr/runner/revtr_runner.go:1372-1394 | its description fixes the result |
| LoopErasure.NothingToErase | revtr/runner/revtr_runner.go:1372-1394 | hops of different clusters are all kept |
| LoopErasure.LoopSample | revtr/runner/revtr_runner.go:1372-1394 | of a loop back to the first cluster its last hop stays, and what follows |
| LoopErasure.RemoveLoops | revtr/runner/revtr_runner.go:1372-1394 | the loop ends with the loop erasure of the hops: the last of the first cluster, then the last of the cluster directly after, to the last hop |
| LoopErasure.ProcessRR | revtr/runner/revtr_runner.go:1337-1394 | nothing, or the hops after the last one in the destination's cluster, erased on request; none in that cluster, and ending in the last recorded hop |
| SpoofDelivery.SendOK | controller/spoofmap.go:30-44 | a notification of a registered id neither blocks nor panics, takes exactly this id off its group and closes the channel exactly at the last one |
| SpoofDelivery.StepKeeps | controller/spoofmap.go:30-77 | every enabled step keeps the invariant: the count of a live group equals its ids still mapped, and closed channels have none |
| SpoofDelivery.CleanupOwn | controller/spoofmap.go:51-64 | the cleanup of a killed group takes no id from another |
| SpoofDelivery.Delivery | controller/spoofmap.go:30-77 | in every state of every run: ids are delivered at most once, only to their group and in the order sent, a registered id finds room in an open channel, a group not killed has been sent exactly the ids no longer mapped and is closed exactly when that is all |
| SpoofDelivery.SpoofIdsFresh | controller/controller.go:157-159 | ids count from one; two are equal exactly when a multiple of 2^32 calls lies between them |
| SpoofDelivery.RegisteredExactly | controller/spoofmap.go:46-77 | whatever happens in between, an id stays registered to its group exactly until it is answered, added again, or a group added with it is cleaned up |
| SpoofDelivery.ReuseExactly | controller/spoofmap.go:46-65 | the cleanup of one group, any number of steps later, takes an id from one added after it exactly if both were added with it and nothing else took it before; then it is never delivered |
| SpoofDelivery.ReusedTooEarly | controller/spoofmap.go:46-65 | a run after which a reused id is lost to the cleanup of its first group, and its second group waits for ever |
| SpoofDelivery.SendProbe | controller/spoofmap.go:30-44 | one send counts down, sends or gives way to the kill, and closes at zero; it blocks or panics just where the select does |
| SpoofDelivery.SpoofMap.Add | controller/spoofmap.go:46-65 | registers a group and its ids |
| SpoofDelivery.SpoofMap.Notify | controller/spoofmap.go:67-77 | forgets exactly the id and sends to its group, never blocking under the locks |
| SpoofDelivery.SpoofMap.Clean | controller/spoofmap.go:51-64 | removes exactly the ids of the group |
| UUCodec.BytesRoundTrip | uuencode/uuencode.go:92-106 | four printable bytes give the three back |
| UUCodec.LineRoundTrip | uuencode/uuencode.go:58-90 | a line of at most 45 bytes decodes to them |
| UUCodec.DecodeAfterEncode | uuencode/uudecode.go:62-78 | an encoding followed by anything decodes to its bytes and then what follows |
| UUCodec.RoundTrip | uuencode/uudecode.go:62-110 | decoding an encoding gives the bytes back, for all byte strings |
| UUCodec.Homomorphism | uuencode/uudecode.go:62-78 | any number of encodings, end to end, decode to their bytes end to end: the backquote line does not stop the decoder |
| UUCodec.EncodedShape | uuencode/uuencode.go:36-56 | an encoding is a line of 61 characters starting with M for each 45 bytes, a shorter one for the rest, starting with the number of bytes, and a backquote alone; printable characters only |
| UUCodec.CatEncoded | uuencode/uuencode.go:92-106 | the encoding of three given bytes, character by character |
| UUCodec.ZerosEncoded | uuencode/uuencode.go:92-97 | zeros, also those that fill up a group, are written as backquotes |
| UUCodec.GroupsDecode | uuencode/uudecode.go:80-110 | a line's groups decode exactly if they are whole and every character is printable |
| UUCodec.BlanksDecode | uuencode/uudecode.go:97-110 | blanks stand for zero too |
| UUCodec.UUEncodeLine | uuencode/uuencode.go:58-90 | fills a buffer of the right size with the line, for any number of bytes |
| UUCodec.UUEncode | uuencode/uuencode.go:36-56 | writes lines of 45 bytes, a shorter one, and the backquote line |
| UUCodec.UUDecodeLine | uuencode/uudecode.go:80-95 | gives as many bytes as the line announces |
| UUCodec.UUDecode | uuencode/uudecode.go:62-78 | decodes line by line |
| UUCodec.UUDecodingWriter.Write | uuencode/uudecode.go:48-55 | appends what the bytes decode to |
| UUCodec.WriteEach | uuencode/uudecode.go:48-55 | a write for each encoding adds all the bytes |
| UUCodec.WriteTogether | uuencode/uudecode.go:48-55 | one write of all encodings adds the same |
| WartsFlags.GetFlags | warts/flags.go:35-55 | the nested loops give the flags of the chain and leave the rest |
| WartsFlags.FlagsRoundTrip | warts/flags.go:35-55 | any set of flags in at most 36 bytes is read back as its ascending list, and exactly its bytes are consumed |
| WartsFlags.ReadAscending | warts/flags.go:35-55 | whatever the bytes, a chain of at most 36 gives a strictly ascending list, so no field is read twice |
| WartsFlags.ReadConsumes | warts/flags.go:35-55 | reading flags consumes a prefix of the input |
| WartsBytes.SliceToUint64 | warts/utils.go:158-167 | the big-endian number of at most eight bytes, zero for more |
| WartsBytes.UintRoundTrip | warts/utils.go:42-98 | a number that fits its width is read back |
| WartsBytes.StringRoundTrip | warts/utils.go:114-135 | a string without zero bytes is read back up to its end mark |
| WartsAddress.AddressRead | warts/address.go:93-120 | what any address form is read as, literals of more than eight bytes included |
| WartsAddress.AddressRoundTrip | warts/address.go:85-120 | an address comes back exactly if its number stands for it, or it has at most eight bytes or is zero |
| WartsAddress.DictionaryRoundTrip | warts/address.go:57-120 | any list of addresses, each written out or put as the number of an earlier one, is read back, and the dictionary holds exactly those written out, numbered from zero |
| WartsAddress.ReadKeepsDense | warts/address.go:65-71 | on every input the numbers in use stay exactly those below the next, and none changes its address |
| WartsRecords.ExtensionsRoundTrip | warts/traceroute.go:76-124 | the list of ICMP extensions is read back when its length is right and below 2^16 |
| WartsRecords.FieldRoundTrip | warts/ping.go:558-620 | a value in any field format is read back, exactly its bytes are consumed, and the dictionary afterwards is the writer's |
| WartsRecords.LengthBeforeData | warts/ping.go:681-690 | the data length is known before the data is read |
| WartsRecords.RecordRoundTrip | warts/ping.go:441-556 | a part with any set of valid fields is read back whole: ping, reply, traceroute and hop |
| WartsRecords.RecordsRoundTrip | warts/ping.go:429-439 | so is a counted list of them, with one dictionary through all |
| WartsRecords.FlagsKnown | warts/ping.go:441-556 | pings have 28 fields, replies 17, traceroutes 28, hops 18; any other flag is an error |
| WartsParse.ItemRoundTrip | warts/warts.go:69-96 | the next record, of any kind, is read back whatever follows |
| WartsParse.TypeIsKind | warts/warts.go:119-134 | an object is asked for by the type its record has in the file, a cycle definition as a cycle start, a record without a reader as type zero |
| WartsParse.ParseItems | warts/warts.go:100-117 | parsing written records followed by anything is parsing what follows, with the requested ones in hand |
| WartsParse.ParseRoundTrip | warts/warts.go:100-117 | a written file gives exactly the objects of the requested types, in order |
| WartsSamples.PingSample | warts/ping.go:405-803 | the bytes of a ping and its reply with every flag set, and the value of each field |
| WartsSamples.TraceSample | warts/traceroute.go:248-577 | the same of a traceroute and its hop |
| WartsSamples.ListSample | warts/flags.go:57-99 | the same of a list, a cycle definition and the end of a cycle, in one file |
| WartsSamples.StatsSample | warts/ping.go:70-117 | the probes sent and the round-trip time in them |
| WartsParse.TracerouteIdsUnknown | warts/traceroute.go:441-450 | on every input with a flag chain of at most 36 bytes the source and destination ids of a traceroute are read as no address |
| WartsCuts.FieldCutOff | warts/ping.go:441-803 | a field of any format cut off anywhere: the plain end-of-file error exactly before data, the bytes of an address or the data of an extension, otherwise another error |
| WartsCuts.PartCutOff | warts/traceroute.go:248-406 | so for a part: also within its flags, and before it unless it is the first of a traceroute |
| WartsCuts.ItemCutOff | warts/warts.go:69-96 | a record of any kind cut off anywhere: where the end of the input is taken for the end of the records, where a list comes back shortened, and an error everywhere else |
| WartsCuts.FileCutOff | warts/warts.go:100-117 | what parsing a file gives that is cut off anywhere in its last record |
| WartsReader.AddressRefs.Store | warts/address.go:65-71 | numbers the address and counts on |
| WartsReader.ReadOneAddress | warts/address.go:93-120 | consumes the buffer and fills the dictionary as WartsAddress.ReadAddress says |
| WartsReader.ReadIcmpExtensionList | warts/traceroute.go:107-124 | ends on every input although its sixteen-bit counter may wrap |
| WartsReader.ReadFlagged | warts/ping.go:657-803 | the loop over the flags reads each field once, in order |
| WartsReader.ReadPart | warts/traceroute.go:286-406 | flags, the length nobody looks at, and the fields; a missing first byte is an error only in a traceroute |
| WartsReader.ReadPingRecord | warts/ping.go:405-427 | a ping and as many replies as it counts |
| WartsReader.ReadTracerouteRecord | warts/traceroute.go:248-272 | a traceroute, as many hops as it counts, and two bytes more |
| WartsReader.ReadListInfo | warts/flags.go:57-99 | strings cut off by the end of the input are given up without an error |
| WartsReader.Parse | warts/warts.go:100-117 | ends on every input with what WartsParse.ParseFrom says |
| WartsReader.ParseWritten | warts/warts.go:100-117 | given a written file, returns exactly the objects of the requested types, in order |
| PingStats.LexicographicIsNumeric | warts/ping.go:120-138 | on normalised times the order is that of the microseconds |
| PingStats.NotNumericOtherwise | warts/ping.go:120-138 | on others it need not be |
| PingStats.ReadIsWellRead | warts/ping.go:405-439 | whatever the bytes, a ping that was read has as many replies as it counts and normalised round-trip times |
| PingStats.SumBetween | warts/ping.go:76-93 | the sum lies between as many times the least and as many times the greatest time |
| PingStats.GetStats | warts/ping.go:70-117 | on a ping that was read: the loss is the probes sent less the replies, at least zero, without wrapping; least and greatest time are just that; the sum fits sixty-four bits |
| Leasing.MergeExact | atlas/server/server.go:394-423 | merging sorted lists adds exactly the second's surplus over the first |
| Leasing.MergeSlices | atlas/server/server.go:397-421 | the three loops compute that merge |
| Leasing.RunningTraces.TryAdd | atlas/server/server.go:389-427 | the caller is given its surplus, which is added to what runs; arrays are rearranged but hold what they held; the first list is shared with the caller |
| Leasing.RunningTraces.Remove | atlas/server/server.go:357-380 | exactly what is not done goes on running |
| Leasing.Unchecked | atlas/server/server.go:361-373 | what is running and not done, once each, in any order |
| Leasing.FreshExactly | atlas/server/server.go:389-427 | a grant avoids what is running exactly when nothing running is asked for twice |
| Leasing.GrantedTwice | atlas/server/server.go:397-421 | a source asked for twice while it runs is granted again |
| Leasing.Leases.NeverTwice | atlas/server/server.go:232-301 | no source is in the hands of two callers for one destination |
| Leasing.Leases.Acquire | atlas/server/server.go:303-336 | keeps: what runs is exactly what is granted, each source once; sorting under the callers' hands changes nothing they hold |
| Leasing.Leases.Release | atlas/server/server.go:300-300 | handing a grant back keeps the same and touches no other grant |
| Leasing.Leases.FillAtlas | atlas/server/server.go:232-301 | however it ends, the sources are handed back, except when the burst is refused: then the grant stays |
| LeaseWalk.VisitsConserve | atlas/server/server.go:235-247 | what the walk reads, and what swaps carry past it, is what there was and what swaps carry back |
| LeaseWalk.VisitsEachExactly | atlas/server/server.go:235-247 | a walk visits each source as often as it was granted exactly if the swaps of the sorting carry back over it what they carry past it |
| LeaseWalk.ClearCarriesNothing | atlas/server/server.go:383-387 | in particular if no swap crosses the place it has come to |
| LeaseWalk.SourceMissed | atlas/server/server.go:394-397 | a list put in order after its first read: one source is read twice, the other never |
| SpoofRegistry.SpoofMap.Register | spoofmap/spoofMap.go:64-82 | an id is taken if it is free or older than a minute |
| SpoofRegistry.SpoofMap.Receive | spoofmap/spoofMap.go:85-94 | the probe is noted under its id, if that is expected |
| SpoofRegistry.SpoofMap.SendSpoofs | spoofmap/spoofMap.go:104-122 | one tick: each probe noted goes to exactly one batch, that of its sender, its entry leaves the table, and all others stay |
| SpoofRegistry.SpoofMap.CleanOld | spoofmap/spoofMap.go:136-149 | drops the old among at most ten thousand entries, in any order |
| SpoofRegistry.AMinute | spoofmap/spoofMap.go:68-68 | an entry is old after sixty seconds |
| SpoofRegistry.OneForEach | spoofmap/spoofMap.go:64-122 | over every run no id is sent more often than it was registered |
| SpoofRegistry.NotedWasReceived | spoofmap/spoofMap.go:85-94 | what is noted is the last probe received since the id was last registered |
| SpoofRegistry.YoungIsSent | spoofmap/spoofMap.go:104-152 | an answered entry that does not get old before the next tick is sent by it |

## Left out

- Runner.StepTimestamp: how replies to timestamp probes are classified is not modelled; the answer of each batch carries the candidates, and the per-hop limit, which is never set and so always one, is a constant.
- Runner.Run: a canceled context ends a run between steps only; durations, counters, callbacks, logging and stored results are left out.
- SpoofDelivery.Delivery: critical sections and the two cases of a select are atomic steps, and ids of groups not yet cleaned up are taken to be distinct; SpoofIdsFresh says how far apart equal ids are, and ReuseExactly what they do.
- UUCodec.UUDecodeLine: a line whose body is not a multiple of four bytes is an error; in the program the last group is sliced past the line, so the result depends on what lies behind it in memory, or it panics.
- WartsAddress.AddressRoundTrip: addresses of more than eight bytes keep only their kind, as in the program.
- WartsParse.ItemRoundTrip: of records with no reader only the header is taken, as in the program, so the writer gives them no payload.
- PingStats.GetStats: the averages and the standard deviation, which are floating point.
- Leasing.Leases.Acquire: which sources are asked for, that is, the choice of sites in getSrcs, is a parameter.
- LeaseWalk.VisitsEachExactly: a swap is one step, although the program stores its two places one after the other.
- SpoofRegistry.SpoofMap.SendSpoofs: whether the transport takes a batch; a batch that fails is lost in the program too.
- The choice of adjacents and spoofers in the services.
- The uint32 vantage point addresses and probe contents other than ids, senders and hops.
- The scamper socket, router, vantage point filters, configuration, iplane reader, databases and the RPC plumbing.

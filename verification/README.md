# Verified models of srsRAN's queues, command line and CPU pinning

Dafny models of five pieces of srsRAN whose correctness is not visible from reading one function,
with proofs about every run, every input or every reachable state.

**The multi-producer multi-consumer queue** (`MpmcModel`, `MpmcInvariant`, `MpmcHistory`,
`MpmcTheorems`, `MpmcProgress`, `MpmcQueue`). The state machine in `MpmcModel` has one step per
atomic access: `fetch_add`, load, compare-exchange, turn load, construct, move, destroy, turn
store. Any number of calls is in flight and their steps interleave in any order; capacity is any
positive number. One invariant, built on `ticket = turn * capacity + index`, carries everything:
successful operations linearize to a first-in first-out queue, each slot has one owner at a time
and is never constructed over or used dead, a refusal of `try_push` or `try_pop` was justified at
some instant of the call, waiting producers and waiting consumers never block each other, and the
difference of the counters stays within capacity plus waiting calls. `MpmcQueue.Queue` is the
code itself, a class over `head`, `tail` and the arrays of turns and slots. Between any two
accesses of a call, `Yield` lets the other calls run any finite number of their steps; the ghost
field `history` records the run, and `Valid()` says that the memory is the state that run leads
to, so the theorems hold of the object at every moment.

**The single-producer single-consumer queue** (`SpscModel`, `SpscInvariant`, `SpscTheorems`,
`SpscQueue`). The ring with stale copies of the other side's index is proved to be a bounded
first-in first-out queue: the invariant counts elements without bound and ties the four indices
to the counts modulo the capacity. `pop` is safe exactly while the cached write index is ahead,
as it is after a non-null `front`; from any other non-empty state a run is constructed in which
the queue breaks although `front` comes before every later `pop`.

**Config files** (`ConfigValues`, `ConfigSections`, `ConfigReader`), **the argument loop**
(`ArgumentModel`, `ArgumentTheorems`, `ArgumentExamples`, `ArgumentLoop`) and **checked
multiplication** (`CheckedMultiply`) of CLI11. `PrintLaws`, `ConfigLaws`, `ReaderLaws`,
`ArgumentLaws`, `OptionLaws` and `PositionalLaws` say what the functions behind these mean, on
characters and on results. Writing any list of arguments as a line of text and
reading it line by line gives the same list exactly if each argument survives; the open and close
markers of a file nest exactly if the file never reads an entry, nor ends, in the default section
reached from two or more levels down; the argument loop ends although it puts the rest of a
cluster of short flags back, and reads `-abc` as `-a -b -c`, `--x=v` as `--x v` and `-xv` as
`-x v`.

**CPU pinning** (`Affinity`, `AffinityMask`). Round-robin pinning hands out every CPU of a mask
once in every round, wherever the round starts; the list printed for a mask parses to that mask.

`Lifetime` (stored objects by serial number, each destroyed at most once), `Arithmetic`,
`Counting`, `Numbers`, `Text` and `Wrappers` serve the others.

## Findings

Four places where the code keeps less than one might expect; each is stated exactly, and shown at
an input that fails.

- `SpscTheorems.PopNeedsFreshCache`: a `pop` of a non-empty queue is safe exactly if the cached
  write index is ahead of the read index, although the assertion inside `pop` holds either way.
  `SpscTheorems.PopWithoutFrontBreaks` is a run that ends in undefined behaviour.
- `ConfigReader.FromConfig`: returning to `[default]` from a section `[a.b]` leaves `a` open;
  `ConfigReader.ReadStranding` is the file of these two lines.
- `ConfigSections.RoundTripIff`: a number with leading space is printed bare and loses the space;
  a comment sign cuts a value even inside quotes; a line end cuts it too. In a list, or with a
  comma or space in it, a quoted argument is lost also if it holds its own quote, ends in a
  backslash, or looks quoted itself. `LeadingSpaceIsLost`, `CommentIsLost`, `QuotedWordIsLost`,
  `BothQuotesAreLost` and `FinalBackslashIsLost` in `ConfigSections` give such lists.
- `ArgumentTheorems.ExtraFlagApartIff`, `LongOptionalApartIff` and `ShortOptionalApartIff`: for a
  flag that accepts extra arguments, and for an option whose value may be left out, writing
  together and writing apart can differ. `ArgumentExamples.FlagsDiffer` and
  `ArgumentExamples.ValuesDiffer` are applications and command lines for which the runs end
  differently.

## Model

| member | source | states |
|---|---|---|
| MpmcTheorems.LogExplainsRun | srsRAN/external/rigtorp/MPMCQueue.h:163-251 | in every run the log of linearization points is a legal history of one unbounded first-in first-out queue; every event in it is of a call that was made, with the value that call pushes; no call, complete or in flight, is in it twice; each completed call is in it with the value it pushed or answered, a refused call is not |
| MpmcTheorems.LogRespectsRealTime | srsRAN/external/rigtorp/MPMCQueue.h:163-251 | a call that had returned before another was made comes before it in the log: with the row above, linearizability |
| MpmcTheorems.PopAnswersItsTicket | srsRAN/external/rigtorp/MPMCQueue.h:222-230 | the pop that took ticket t answers the value pushed under ticket t, that push is complete, and no other pop has that ticket |
| MpmcTheorems.NoUndefinedBehaviour | srsRAN/external/rigtorp/MPMCQueue.h:87-101 | no run constructs over a live object, or moves from or destroys a dead one |
| MpmcTheorems.SlotIsExclusive | srsRAN/external/rigtorp/MPMCQueue.h:168-171 | two calls between seeing their turn and storing the next one on the same slot are one call |
| MpmcTheorems.TurnGrowsByOne | srsRAN/external/rigtorp/MPMCQueue.h:166-171 | a slot's turn changes only by one, upwards, and only through the call whose ticket the turn named |
| MpmcTheorems.CheckThenCasIsSound | srsRAN/external/rigtorp/MPMCQueue.h:180-184 | when the compare-exchange succeeds, the turn tested before it still holds |
| MpmcTheorems.FailureIsSound | srsRAN/external/rigtorp/MPMCQueue.h:186-192 | try_emplace, and try_pop alike, returns false only if at an instant of the call its counter equalled the local one and the slot had not been released by the pop one lap back, or not been published |
| MpmcProgress.DeadlockIsOneSided | srsRAN/external/rigtorp/MPMCQueue.h:166-169 | if no call in flight can take a step, all are pushes at least a lap ahead of all pops, or all are pops ahead of all pushes |
| MpmcProgress.Occupancy | srsRAN/external/rigtorp/MPMCQueue.h:163-251 | at every instant the difference of the counters lies between minus the waiting pops and capacity plus the waiting pushes |
| MpmcProgress.SizeOfTwoLoads | srsRAN/external/rigtorp/MPMCQueue.h:253-261 | size(), its two loads at any two instants in either order, keeps one of these bounds exactly and the other up to what the second counter moved in between |
| MpmcProgress.TryOnlyOccupancy | srsRAN/external/rigtorp/MPMCQueue.h:174-194 | with try_push and try_pop alone it lies within 0..capacity, always |
| MpmcProgress.QuiescentAtRest | srsRAN/external/rigtorp/MPMCQueue.h:81-85 | when all calls have returned, the slots hold exactly the elements of the abstract queue, and a slot holds a live object exactly if its turn is odd |
| MpmcQueue.QuiescentReady | srsRAN/external/rigtorp/MPMCQueue.h:180-192 | with no call in flight a push would succeed exactly if the queue is not full, a pop exactly if it is not empty |
| MpmcHistory.StepKeepsInv | srsRAN/external/rigtorp/MPMCQueue.h:163-251 | every atomic step of every call keeps tickets, slots, log and lifetimes in order |
| MpmcQueue.Queue.Create | srsRAN/external/rigtorp/MPMCQueue.h:119-124 | a capacity below one is refused, any other gives an empty queue |
| MpmcQueue.Queue.constructor | srsRAN/external/rigtorp/MPMCQueue.h:119-136 | counters, turns and slots are those of the empty run |
| MpmcQueue.Queue.Emplace | srsRAN/external/rigtorp/MPMCQueue.h:163-172 | interleaved with anything, the call is a push in the run that has taken a ticket, and is complete if its turn came within the looks allowed; undisturbed, one look tells: it is complete exactly if the next slot was ready, and v is the last element pushed |
| MpmcQueue.Queue.Pop | srsRAN/external/rigtorp/MPMCQueue.h:222-230 | the same for pop, with the value answered; undisturbed, exactly if the next slot was ready, the element of the next pop ticket |
| MpmcQueue.Queue.TryEmplace | srsRAN/external/rigtorp/MPMCQueue.h:174-194 | the answer is that of the run; at most one iteration more than the tickets others took meanwhile; undisturbed, true exactly if the next slot is ready, and then v is appended |
| MpmcQueue.Queue.TryPop | srsRAN/external/rigtorp/MPMCQueue.h:232-251 | the same for try_pop; undisturbed, the element is that of the next pop ticket |
| MpmcQueue.Queue.Construct | srsRAN/external/rigtorp/MPMCQueue.h:87-91 | the slot held no object, and is that of the call's ticket |
| MpmcQueue.Queue.Move | srsRAN/external/rigtorp/MPMCQueue.h:99-101 | the slot held an object, the value pushed under the same ticket |
| MpmcQueue.Queue.Teardown | srsRAN/external/rigtorp/MPMCQueue.h:152-157 | the destructor destroys an object in each slot of odd turn, and with that every object ever constructed has been destroyed exactly once |
| SpscTheorems.ConsumerGetsPrefix | srsRAN/external/rigtorp/SPSCQueue.h:105-190 | in every run with pop only while the cached write index is ahead, what was popped is a prefix of what was pushed, at most capacity() are stored, no slot is written live or used dead |
| SpscTheorems.PushFailsIffFull | srsRAN/external/rigtorp/SPSCQueue.h:131-136 | a push call ends with false exactly at try_emplace's reload with capacity() elements stored at that instant |
| SpscTheorems.FrontIsNullIffEmpty | srsRAN/external/rigtorp/SPSCQueue.h:168-177 | front is null exactly if nothing is stored at its last load, and otherwise the read slot |
| SpscTheorems.FrontStays | srsRAN/external/rigtorp/SPSCQueue.h:168-177 | a non-null front keeps pointing to the oldest element, unchanged, whatever both threads do short of pop |
| SpscTheorems.SizeIsInRange | srsRAN/external/rigtorp/SPSCQueue.h:192-199 | size() is within 0..capacity() whichever load comes first and whatever happens in between, and exact if one index stood still |
| SpscTheorems.PopNeedsFreshCache | srsRAN/external/rigtorp/SPSCQueue.h:168-190 | with any number of elements stored and the producer anywhere, a pop is safe, in that every later run of both threads with front before each pop stays sound, exactly if the cached write index is ahead |
| SpscTheorems.PopOfStaleCache | srsRAN/external/rigtorp/SPSCQueue.h:168-190 | otherwise the consumer alone, calling front before each pop, empties the queue and is then pointed into it |
| SpscTheorems.FrontIsPolite | srsRAN/external/rigtorp/SPSCQueue.h:168-177 | while a front is non-null the cached write index is ahead |
| SpscTheorems.PopWithoutFrontBreaks | srsRAN/external/rigtorp/SPSCQueue.h:168-190 | a concrete run in which pop without front leads to a non-null front of an empty queue and a second pop to undefined behaviour |
| SpscInvariant.FullTest | srsRAN/external/rigtorp/SPSCQueue.h:126-133 | comparing the next write index with any known earlier read count tells exactly whether the ring is full for that count |
| SpscInvariant.EmptyTest | srsRAN/external/rigtorp/SPSCQueue.h:169-172 | comparing the read index with any known write count tells exactly whether nothing is stored by that count |
| SpscInvariant.StepKeepsInv | srsRAN/external/rigtorp/SPSCQueue.h:105-190 | every atomic step keeps indices, caches and slots in order |
| SpscQueue.Queue.constructor | srsRAN/external/rigtorp/SPSCQueue.h:58-65 | at least one element fits, and one slot is slack |
| SpscQueue.Queue.Emplace | srsRAN/external/rigtorp/SPSCQueue.h:104-119 | interleaved with the consumer, v is sent once the ring is seen not to be full: with one look if there was room when the call began; undisturbed, not if it was full |
| SpscQueue.Queue.TryEmplace | srsRAN/external/rigtorp/SPSCQueue.h:121-140 | true with v sent after all earlier elements, or false with nothing sent; undisturbed, false exactly if full |
| SpscQueue.Queue.Front | srsRAN/external/rigtorp/SPSCQueue.h:168-177 | null only if the queue was empty when the call began, else the slot of the oldest element; undisturbed, exact |
| SpscQueue.Queue.Pop | srsRAN/external/rigtorp/SPSCQueue.h:179-190 | while the cached write index is ahead, the oldest element is destroyed and released; the assertion inside holds; the cached index stays, so several pops may follow one front |
| SpscQueue.Queue.Teardown | srsRAN/external/rigtorp/SPSCQueue.h:92-98 | everything sent has been taken, the slots are empty, every object ever constructed has been destroyed exactly once |
| ConfigSections.RoundTripIff | srsRAN/external/CLI/CLI11.hpp:9122-9238 | for any plain name and any non-empty list of arguments, the written line, cut at line ends and read, is the one entry of that name and list exactly if each argument survives: no comment sign, no line end, not a number with leading space, and readable where it stands |
| ConfigSections.FileReadsBack | srsRAN/external/CLI/CLI11.hpp:9133-9220 | a whole file of written headers and entries reads as what was written |
| ConfigSections.LinesFree | srsRAN/external/CLI/CLI11.hpp:9133-9220 | no value read from lines without line ends holds one |
| ConfigSections.LeadingSpaceIsLost | srsRAN/external/CLI/CLI11.hpp:8987-8992 | the list of the one argument " 1" does not come back |
| ConfigSections.CommentIsLost | srsRAN/external/CLI/CLI11.hpp:9180-9184 | nor do a#b and a text of two lines |
| ConfigSections.QuotedWordIsLost | srsRAN/external/CLI/CLI11.hpp:9211-9213 | nor does a list with a word in single quotes |
| ConfigSections.BothQuotesAreLost | srsRAN/external/CLI/CLI11.hpp:9015-9018 | nor does a list with an argument of both quotes |
| ConfigSections.FinalBackslashIsLost | srsRAN/external/CLI/CLI11.hpp:559-562 | nor does a list with an argument that ends in a backslash |
| ConfigValues.ValueRoundTripIff | srsRAN/external/CLI/CLI11.hpp:8978-9045 | for any non-empty list of arguments at all, the printed value parses to the list exactly if no argument has a comment sign, is a number with leading space, or is not readable where it stands |
| ConfigValues.ReadBackIff | srsRAN/external/CLI/CLI11.hpp:9177-9213 | without comment signs, what is read is each argument, unquoted ones without their leading space, exactly if each is readable where it stands |
| ConfigValues.FirstPiece | srsRAN/external/CLI/CLI11.hpp:544-594 | taken from the front of an array, or alone, a printed argument comes back in that form exactly if it is readable: not holding its own quote, not ending in a backslash, not looking quoted; and then nothing else is taken |
| ConfigValues.TakeFailed | srsRAN/external/CLI/CLI11.hpp:556-585 | quoted text that is not so never comes back, however far beyond it the closing quote is found |
| ConfigValues.PiecesFree | srsRAN/external/CLI/CLI11.hpp:544-594 | taking text apart invents no characters: one not in the text is in no piece |
| ConfigValues.BareSafe | srsRAN/external/CLI/CLI11.hpp:8978-9014 | what is printed without quotes has, after leading space, no quote, comma, space, bracket or comment sign |
| PrintLaws.NumberIsPrinted | srsRAN/external/CLI/CLI11.hpp:8986-8992 | every decimal number, with sign, fraction and exponent or without, is printed as it is |
| PrintLaws.NumbersHaveTheForm | srsRAN/external/CLI/CLI11.hpp:8986-8992 | a text of digits, signs, points and e that counts as a number has the form of one |
| PrintLaws.PrefixedIsPrinted | srsRAN/external/CLI/CLI11.hpp:8998-9014 | so are hexadecimal, octal and binary integers |
| PrintLaws.OtherHexIsQuoted | srsRAN/external/CLI/CLI11.hpp:8986-9002 | text after 0x that is not all hexadecimal digits is quoted |
| PrintLaws.OthersAreQuoted | srsRAN/external/CLI/CLI11.hpp:8993-9018 | text that starts no number and is no word is quoted, in the double quote if it can be |
| PrintLaws.LongListsArePrinted | srsRAN/external/CLI/CLI11.hpp:9021-9045 | each further argument of a list is printed before its closing bracket, after a comma and a space |
| ConfigValues.BodyIff | srsRAN/external/CLI/CLI11.hpp:9021-9045 | the joined text of a list splits into the arguments' forms exactly if every one is readable |
| ConfigValues.IniJoin | srsRAN/external/CLI/CLI11.hpp:9021-9045 | the loop builds the text the round trip is about |
| ConfigValues.SplitUp | srsRAN/external/CLI/CLI11.hpp:544-594 | the loop takes off piece by piece what the round trip is about |
| ConfigValues.FindClosing | srsRAN/external/CLI/CLI11.hpp:556-562 | the quote found is the first one not after a backslash, and it is known whether one was passed over |
| ConfigSections.WrittenLineReadsBack | srsRAN/external/CLI/CLI11.hpp:9308 | among any other lines, a written line of a plain name and surviving arguments is read as the entry of that name and list |
| ConfigSections.ArrayOverLines | srsRAN/external/CLI/CLI11.hpp:9186-9190 | an array written over several lines reads as it would on one, and uses those lines up |
| ConfigLaws.CommentMakesNoDifference | srsRAN/external/CLI/CLI11.hpp:9171-9174 | a line whose first character is # or ; makes no difference to what a file holds, outside arrays over several lines |
| ConfigLaws.CommentSaysNothing | srsRAN/external/CLI/CLI11.hpp:9171-9174 | nor where it stands |
| ConfigLaws.FilesInSequence | srsRAN/external/CLI/CLI11.hpp:9133-9238 | if no array is open at the end of the first, two files one after the other read as the first and then the second |
| ConfigLaws.EntryLine | srsRAN/external/CLI/CLI11.hpp:9177-9208 | name = value, with spaces and a comment or without, is an entry of that name with the items of that value; the = may stand in a comment |
| ConfigLaws.NameLine | srsRAN/external/CLI/CLI11.hpp:9199-9208 | a name alone, with a comment or without, is an entry of the one value true |
| ConfigLaws.QuotedName | srsRAN/external/CLI/CLI11.hpp:9209-9211 | a name without dots loses its quotes |
| ConfigLaws.HeaderLine | srsRAN/external/CLI/CLI11.hpp:9144-9168 | text in brackets, with spaces around it, is a header |
| ConfigLaws.SectionNames | srsRAN/external/CLI/CLI11.hpp:9151-9159 | one pair of brackets or two give the same section, and the default one is that in any case |
| ConfigLaws.CommaList | srsRAN/external/CLI/CLI11.hpp:9192-9193 | items with commas and spaces between are read one by one |
| ConfigLaws.BracketList | srsRAN/external/CLI/CLI11.hpp:9186-9191 | and so in brackets |
| ConfigLaws.SpaceList | srsRAN/external/CLI/CLI11.hpp:9194-9195 | words with spaces between and no comma are read one by one |
| ConfigLaws.EscapedReads | srsRAN/external/CLI/CLI11.hpp:544-594 | quoted text with a backslash before each quote in it reads as the text without those backslashes |
| ConfigLaws.DottedNames | srsRAN/external/CLI/CLI11.hpp:9047-9070 | a dotted key is its last part under the others, a dotted section its parts, all without quotes |
| ConfigSections.CheckParentSegments | srsRAN/external/CLI/CLI11.hpp:9072-9119 | from a section just closed, or none, only markers change and afterwards exactly the levels of the new section are open |
| ConfigSections.SwitchSection | srsRAN/external/CLI/CLI11.hpp:9077-9105 | closing down to the shared levels, or taking one close marker back, then opening the rest leaves exactly the levels above the new section open |
| ConfigSections.CloseDownTo | srsRAN/external/CLI/CLI11.hpp:9080-9083 | adds close markers only, innermost first, down to the wanted depth |
| ConfigSections.TakeBack | srsRAN/external/CLI/CLI11.hpp:9093-9094 | removing the last close marker leaves its section open |
| ConfigSections.GenerateParents | srsRAN/external/CLI/CLI11.hpp:9047-9070 | the section's segments, then those of a dotted name, all without quotes, and the bare name |
| ConfigReader.FromConfig | srsRAN/external/CLI/CLI11.hpp:9122-9252 | for every file without keys named as markers: the output holds exactly the file's items and values in order, each item in its section; the markers nest, match the section of every item and close at the end, exactly if no entry is read, and the file does not end, in the default section reached from two or more levels down; and if only the end is at fault, exactly the sections above the one left stay open |
| ConfigReader.SectionsFixed | srsRAN/external/CLI/CLI11.hpp:9231-9238 | what the file holds fixes the section of every item, also of items without values |
| ReaderLaws.CleanIff | srsRAN/external/CLI/CLI11.hpp:9144-9168 | a file is clean exactly if there are no two headers, the first of a section two or more levels deep, the second of the default one with only entries between, such that after the second an entry is kept, or the file ends, before a section is entered |
| ReaderLaws.CurrentSection | srsRAN/external/CLI/CLI11.hpp:9144-9160 | the section entries stand in is that of the last header |
| ReaderLaws.EntryAfterHeader | srsRAN/external/CLI/CLI11.hpp:9217-9238 | the first entry after a header is a new item with its values, under the section's segments and those of its key |
| ReaderLaws.EntryAfterEntry | srsRAN/external/CLI/CLI11.hpp:9231-9238 | an entry after another is a new item, unless both have the same parents and name: then its values are added to that |
| ConfigReader.ReadStranding | srsRAN/external/CLI/CLI11.hpp:9144-9168 | reading the two lines [a.b] and [default] leaves exactly the section a open at the end |
| ConfigReader.MarkersKeep | srsRAN/external/CLI/CLI11.hpp:9072-9119 | adding markers or taking one back changes no value and no law of the items before |
| ConfigReader.MergeKeeps | srsRAN/external/CLI/CLI11.hpp:9231-9232 | merging into the last item changes no marker and adds exactly its values |
| ArgumentTheorems.StepShrinks | srsRAN/external/CLI/CLI11.hpp:8283-8323 | every step of the loop leaves less text to read, also one that puts the rest of a cluster back |
| ArgumentTheorems.ClusterIsApart | srsRAN/external/CLI/CLI11.hpp:8683-8686 | for flags a, b and any c, the whole run of -abc equals that of -a -b -c, errors included |
| ArgumentTheorems.ExtraFlagApartIff | srsRAN/external/CLI/CLI11.hpp:8641-8664 | for a flag accepting extra arguments, and anything after it in the cluster, the next step is the same together and apart exactly if the flag takes alike; the whole runs are then equal |
| ArgumentExamples.FlagsDiffer | srsRAN/external/CLI/CLI11.hpp:8641-8664 | an application in which -fg x gives x to -f and -f -g x leaves it over |
| ArgumentTheorems.LongValueApart | srsRAN/external/CLI/CLI11.hpp:8613-8632 | for an option that must have a value, the whole run of --x=v equals that of --x v |
| ArgumentTheorems.ShortValueApart | srsRAN/external/CLI/CLI11.hpp:8617-8631 | the same for -xv and -x v |
| ArgumentTheorems.LongOptionalApartIff | srsRAN/external/CLI/CLI11.hpp:8638-8671 | for an option whose value may be left out, the next step of --x=v and of --x v is the same exactly if v is taken apart as it is together, for every non-empty v, "--" included; the whole runs are then equal |
| ArgumentTheorems.ShortOptionalApartIff | srsRAN/external/CLI/CLI11.hpp:8638-8671 | the same for -xv and -x v |
| ArgumentExamples.ValuesDiffer | srsRAN/external/CLI/CLI11.hpp:8638-8671 | an application in which --x=-v gives -v to --x, and --x -v gives it its default and leaves -v over |
| ArgumentTheorems.MarkEndsOptions | srsRAN/external/CLI/CLI11.hpp:8286-8297 | after "--" no purely named option gets anything, each argument goes to one positional option or to the extras, and only a surplus is an error |
| ArgumentLaws.OneValueLong | srsRAN/external/CLI/CLI11.hpp:8625-8632 | --x v, for an option of one value, adds exactly v to it, changes no other option, and the run goes on with the arguments after v |
| ArgumentLaws.OneValueShort | srsRAN/external/CLI/CLI11.hpp:8625-8632 | the same for -x v |
| ArgumentLaws.FixedTakes | srsRAN/external/CLI/CLI11.hpp:8625-8632 | an option of k values takes exactly the next k arguments, whatever they look like |
| ArgumentLaws.FixedLacks | srsRAN/external/CLI/CLI11.hpp:8634-8636 | with fewer arguments left it takes them all and is an error |
| ArgumentLaws.TakeMinCount | srsRAN/external/CLI/CLI11.hpp:8625-8632 | arguments are taken one by one as long as less than the least is collected, and none after that |
| ArgumentLaws.TakeMoreCount | srsRAN/external/CLI/CLI11.hpp:8643-8659 | optional ones as long as there is room, the next is no option, the positional options can spare it and the validators accept it, and none after that |
| ArgumentLaws.VectorTakes | srsRAN/external/CLI/CLI11.hpp:8625-8662 | an option of one or more values takes the argument after its name and all others up to the next option |
| ArgumentLaws.PartIsError | srsRAN/external/CLI/CLI11.hpp:8671-8678 | a part of an occurrence is an error if the type's size is fixed, and is marked by an empty result otherwise |
| ArgumentLaws.LeastIs | srsRAN/external/CLI/CLI11.hpp:8597 | the least an option takes is the size of its type, or nothing if it need not occur |
| OptionLaws.Kinds | srsRAN/external/CLI/CLI11.hpp:7819-7841 | which texts are marks, long, short and windows-style options, by their first characters |
| OptionLaws.FirstNamed | srsRAN/external/CLI/CLI11.hpp:8547-8554 | the option named is the first of that name |
| OptionLaws.CalledIs | srsRAN/external/CLI/CLI11.hpp:4726-4734 | names are compared without regard to case and underscores as the option says, short ones to case only |
| OptionLaws.DelimitedText | srsRAN/external/CLI/CLI11.hpp:5511-5520 | with a delimiter, the parts of a text between delimiters are the values |
| OptionLaws.BracketedText | srsRAN/external/CLI/CLI11.hpp:5500-5510 | with extra arguments, so are the parts of a list in brackets |
| OptionLaws.FlagWithoutValue | srsRAN/external/CLI/CLI11.hpp:5258-5264 | a flag without value stands for true or for what is set for its name |
| OptionLaws.FlagWithValue | srsRAN/external/CLI/CLI11.hpp:5242-5267 | with a value it stands for that, or is an error if values are not allowed |
| OptionLaws.FixedFlag | srsRAN/external/CLI/CLI11.hpp:5242-5257 | if values are not allowed, the one set for the name used is no error, and every other is |
| OptionLaws.NegatedFlag | srsRAN/external/CLI/CLI11.hpp:5268-5273 | a name that stands for false turns true, false and numbers round |
| OptionLaws.MarkIsRead | srsRAN/external/CLI/CLI11.hpp:8287-8296 | a double dash is noted as an extra and ends the options |
| OptionLaws.UnknownIsExtra | srsRAN/external/CLI/CLI11.hpp:8578-8581 | an option nobody has is noted as an extra |
| OptionLaws.WindowsValueApart | srsRAN/external/CLI/CLI11.hpp:2543-2556 | the whole run of /x:v equals that of /x v |
| PositionalLaws.GoesToFirst | srsRAN/external/CLI/CLI11.hpp:8389-8419 | a positional text goes to the first option, in order, that holds fewer values than it expects or accepts extra ones, and whose validators accept it |
| PositionalLaws.GoesToExtras | srsRAN/external/CLI/CLI11.hpp:8458-8466 | it goes to the extras if there is none, and all others with it if only a prefix is parsed |
| PositionalLaws.AtEnd | srsRAN/external/CLI/CLI11.hpp:8351-8387 | with positional options at the end, the required ones come first once only enough arguments for them are left, and a text none wants is an error |
| PositionalLaws.NeverTooMany | srsRAN/external/CLI/CLI11.hpp:8347-8469 | whatever the command line, a purely positional option never holds more values than it expects, or than it held before |
| PositionalLaws.FilledInOrder | srsRAN/external/CLI/CLI11.hpp:8389-8419 | positional options of one value get one argument each, in order |
| PositionalLaws.GiveOptionOthers | srsRAN/external/CLI/CLI11.hpp:8584-8687 | an option named changes no other option's results |
| PositionalLaws.NeededIs | srsRAN/external/CLI/CLI11.hpp:8325-8335 | what positional options still need is what the one that is not full lacks |
| PositionalLaws.PositionalEndsOptions | srsRAN/external/CLI/CLI11.hpp:8311-8316 | a positional argument ends the options exactly if positional ones come at the end |
| ArgumentLoop.Parser.Parse | srsRAN/external/CLI/CLI11.hpp:8169-8177 | the loop ends, for every argument vector and app without subcommands, in the state of the run the theorems are about |
| ArgumentLoop.Parser.Single | srsRAN/external/CLI/CLI11.hpp:8283-8323 | one step: state, arguments left, error and the positional-only mark |
| ArgumentLoop.Parser.ParseOption | srsRAN/external/CLI/CLI11.hpp:8518-8588 | an unknown option goes to the extras, a known one gets what it takes |
| ArgumentLoop.Parser.Collect | srsRAN/external/CLI/CLI11.hpp:8624-8687 | the two collecting loops, their errors and the rest put back |
| ArgumentLoop.Parser.CollectMore | srsRAN/external/CLI/CLI11.hpp:8641-8659 | optional values are taken up to the next option, the maximum, what positionals need, or what the validators refuse |
| ArgumentLoop.Parser.PlacePositional | srsRAN/external/CLI/CLI11.hpp:8347-8469 | the positional option that takes the argument, if its validators do not refuse it, or the extras, or an error |
| ArgumentLoop.Parser.CountRemaining | srsRAN/external/CLI/CLI11.hpp:8325-8335 | the number of values positional options still want |
| ArgumentLoop.Parser.MostValues | srsRAN/external/CLI/CLI11.hpp:8598-8604 | the maximum with its overflowing products capped |
| CheckedMultiply.Multiply | srsRAN/external/CLI/CLI11.hpp:3204-3217 | for every signed or unsigned width: true exactly if the mathematical product fits, which is then stored; else the operand is unchanged |
| CheckedMultiply.OverflowCheckIsExact | srsRAN/external/CLI/CLI11.hpp:3190-3201 | the test by truncating division is exact for all operands but zero and the lowest value |
| Affinity.EveryWindowIsFair | srsRAN/apps/services/os_sched_affinity_manager.h:118-137 | any k calls in a row on a mask of k CPUs, from whatever call on, hand out each of them exactly once and nothing else |
| Affinity.EveryCpuInTurn | srsRAN/apps/services/os_sched_affinity_manager.h:118-137 | at the start of a round, n calls hand out the j-th CPU n / k times, and once more if j < n % k |
| Affinity.EveryCpuFromStart | srsRAN/apps/services/os_sched_affinity_manager.h:118-137 | from the first call on, n calls hand out every CPU of the mask n / k times, rounded down or up |
| Affinity.WorkerMasks | srsRAN/apps/services/worker_manager.cpp:406-409 | as many calls in a row as a pool has workers give each a mask that holds the next CPU handed out and no other, so what is said of the CPUs handed out holds of the manager |
| Affinity.AffinityEntryRr.CalculateMask | srsRAN/apps/services/os_sched_affinity_manager.h:118-134 | a mask of the same size that holds one CPU alone, the next one of the configured mask, found in at most two rounds; the default mask if there is none |
| Affinity.NextIsNext | srsRAN/apps/services/os_sched_affinity_manager.h:127-131 | the next CPU is the first set one from where the search starts, or, if there is none, the first of all |
| Affinity.AffinityManager.constructor | srsRAN/apps/services/os_sched_affinity_manager.h:150-166 | every kind follows its latest configuration, round robin with a round of its own, at its start; a kind without one has no policy |
| Affinity.LatestIsLast | srsRAN/apps/services/os_sched_affinity_manager.h:153-165 | the latest configuration of a kind is the one no later one is for the same kind, if there is any |
| Affinity.AffinityManager.CalculateAffinityMask | srsRAN/apps/services/os_sched_affinity_manager.h:169-175 | the policy of the kind answers, and no other kind's round moves |
| AffinityMask.PrintedMaskReadsBack | srsRAN/apps/gnb/gnb_appconfig_yaml_writer.cpp:64-72 | the ids printed for any non-empty mask of available CPUs parse, and name exactly that mask |
| AffinityMask.MixedListReads | srsRAN/apps/gnb/gnb_appconfig_cli11_schema.cpp:141-166 | any comma list of ids and ranges, in any order, is accepted exactly if every id and range end is an available CPU that fits an int and every range goes upwards; it then names exactly the CPUs its ids and ranges cover |
| AffinityMask.RangeReads | srsRAN/apps/gnb/gnb_appconfig_cli11_schema.cpp:114-139 | the text a-b reads as the CPUs from a to b, and is refused if an end is not available or b is not above a |
| AffinityMask.RangeHasOneDash | srsRAN/apps/gnb/gnb_appconfig_cli11_schema.cpp:130-132 | a token with more than one dash is refused |
| AffinityMask.TrailingCommaIsRefused | srsRAN/apps/gnb/gnb_appconfig_cli11_schema.cpp:146-160 | a list that ends in a comma is refused, for its empty last token |
| AffinityMask.IntegersFit | srsRAN/apps/gnb/gnb_appconfig_cli11_schema.cpp:34-44 | spaces, a sign, digits and any other text after them read as the number, if it fits an int |
| AffinityMask.ParseAffinityMask | srsRAN/apps/gnb/gnb_appconfig_cli11_schema.cpp:141-166 | succeeds exactly if every token is an available CPU or a range between two; then exactly the named CPUs are added to the mask |
| AffinityMask.ParseCpuRange | srsRAN/apps/gnb/gnb_appconfig_cli11_schema.cpp:114-139 | exactly two available CPUs, the lower first |
| AffinityMask.ParsePrintedInt | srsRAN/apps/gnb/gnb_appconfig_cli11_schema.cpp:34-44 | a printed number is read as that number |

## Left out

- Weak memory orderings, padding, alignment and allocators of both queues: every access is a sequentially consistent step.
- Wrap-around of size_t: tickets and counts are natural numbers. MPMCQueue.h leaves it open itself (line 258).
- The clamp of SPSCQueue's capacity near SIZE_MAX and allocate_at_least: the capacity asked for plus one slack slot is used.
- Throwing constructors, and moving as opposed to copying an element: values are values.
- MPMC empty(): its answer is size() <= 0, and no more is said of it.
- Emplace: the waiting loops of emplace and pop are followed for any given number of looks, so the model covers every finite prefix of them. That others' steps between two accesses are finitely many is an assumption of TryEmplace and TryPop, too.
- Interfere: stands for the other threads; its body does nothing, its contract allows anything they may do, and callers see only the contract.
- Pop: the single-producer queue's requires the cached write index to be ahead, more than the assertion in it says (SPSCQueue.h:183); PopNeedsFreshCache says why.
- Front: the pointer is the slot's index.
- FromConfig: of files with keys named "++" or "--" nothing is promised, because the reader's output does not tell them from markers.
- FromConfig: configSection and configIndex, and formatter characters other than the defaults, are not modelled; a line is what getline returns.
- RoundTripIff: the empty list is excluded; the writer writes no line for an empty value (CLI11.hpp:9300). So are names that do not read as themselves.
- strtold is described by its grammar in the C locale; the value it gives, and the rounding and overflow of floating point, are not part of the model, only whether the whole text is a number.
- Parse: subcommands, option groups, environment variables and the processing of results after the loop (_process, _process_extras) are not part of the model. Validators are any predicate on texts; one that throws counts as refusing. The int product in get_items_expected_min is taken as the mathematical one.
- Collect: trigger_on_parse, which runs an option's callback inside the loop, is not part of the model.
- PlacePositional: nor is it here, nor is the search for a subcommand.
- ExtraFlagApartIff: the equivalence is of steps; runs that differ in a step could still end alike. The same holds of LongOptionalApartIff and ShortOptionalApartIff.
- CLI11 help, error texts and the rest of the writer (groups, descriptions, subcommands).
- bounded_bitset's find_lowest and fill, and the list format of fmt, are specified rather than modelled.
- ParseAffinityMask: report_error, which ends the program, is the answer false; nothing is said of the mask then.
- Task executors, loggers, configuration structs and start-up code: plumbing.

# Verified models of the DAQ framework

This project models, in Dafny, the parts of the data-acquisition framework that move, cut, assemble, store and
control data, and proves what they promise. There is one module for each component. Where the code changes objects or
local variables step by step, the model does too: a class or a method with loops is proved against specification
functions, and the promises are proved about those functions, for every input, every run and every interleaving.

| component | files |
|---|---|
| buffered, rotating file writer and its file names | `FileWriter.dfy`, `FileNames.dfy`, `ChannelNames.dfy` |
| serialised event format, byte buffer and event object | `Codec.dfy`, `CaenEvent.dfy` |
| event builder (receive loop and consumer thread) | `EventBuilder.dfy` |
| reusable worker thread | `WorkerThread.dfy` |
| CAEN file writer, its write state and its naming loop | `CaenFileWriter.dfy`, `CaenNaming.dfy` |
| queue relays between threads, and two of them linked | `QueueReceiver.dfy`, `QueueSender.dfy`, `RelayLink.dfy` |
| control tree: dispatch of actions, states, the node objects | `NodeTree.dfy`, `Dispatch.dfy`, `TreeState.dfy`, `Checkers.dfy`, `ControlNode.dfy` |
| command responses, module states and `down` | `Responses.dfy`, `Modules.dfy` |
| channel bookkeeping | `Connections.dfy` |
| shared definitions | `Sequences.dfy`, `Arithmetic.dfy` |

Threads are modelled as state machines: one step is one access to shared data, a run is any sequence of steps of any
thread, and the results hold in every state that a run can reach.

## What was found

Promises of the code's own comments, names or messages that the code does not keep, each with a proof:

- The comment on the consumer loop of the event builder (`EventBuilderModule.cpp:61`) says that complete events are
  finished on a stop. After a stop no further event is built (`EventBuilder.StopBuildsNothing`), and a complete event
  waiting in the queue is lost (`EventBuilder.StopLeavesCompleteEvent`); `EventBuilder.StopFinishesIff` says exactly when
  all complete events that the queue accepted can still be built.
- A repeated sequence number 0 is not noticed and makes an event of two fragments of one channel
  (`EventBuilder.RepeatedZeroMixesEvents`). Fragments of one channel meet in an event exactly if one is stored while another
  is pending under its number (`EventBuilder.UnmixedIffFresh`), and with a guard against that every event is whole, whatever
  the numbers are (`EventBuilder.GuardedEventsAreWhole`).
- The file writer loses its buffer when the stop flag is seen by the test of the outer loop instead of inside the wait
  (`FileWriter.LoopTestLosesIff` says exactly when bytes are lost), and a buffer size of 0 never leaves the split loop
  (`FileWriter.SplitTerminatesIff`).
- Every channel of the file writer names its files by itself, and the check of the pattern does not notice that the
  names of two channels can meet: with "%c%n%r%D", the first file of channel 11 replaces the eleventh of channel 1 if it
  is opened within the same second (`ChannelNames.AcceptedPatternMeets`). With one "%n", a pattern keeps all channels of
  a run apart, whenever they read the clock, exactly if something other than digits cuts a "%c" off from the "%n"
  (`ChannelNames.ChannelsApartIff`); `ChannelNames.AllApartIff` says the same across runs, and for neighbouring fields
  `ChannelNames.NeighboursIff` gives the exact limits.
- The CAEN naming loop compares the proposed names with the previous ones to notice a pattern without a file number,
  but in every call that the writer makes the previous names are empty, so the loop does not end
  (`CaenNaming.ConstantNamesTerminateIff`).
- The warning about a file that cannot be opened announces that output goes on with the next files. Instead the later
  events of the session are lost (`CaenFileWriter.OpenFailureLosesNextEvent`, `CaenFileWriter.ErrorLastsUntilStart`);
  `CaenFileWriter.WrittenIff` says for every event exactly when it is written.
- Starting and stopping without events after a trimmed session takes the file number back although nothing is left to
  delete (`CaenFileWriter.IdleRoundIff` says exactly when), and with the policy to overwrite a run can replace a complete
  file set in this way (`CaenFileWriter.FullSetIsReplaced`). With the other policies every closed set is kept
  (`CaenFileWriter.ClosedSetsAreKept`, `CaenFileWriter.FullSetsAreKept`), and with overwriting `CaenFileWriter.OverwritesIff` says which sets an event
  destroys.
- The sending relay ignores whether its chained sender has taken a message. A link between two relays loses messages
  without any stop, whatever the wire holds (`RelayLink.FullWireLoses`); `RelayLink.LosingStepsIff` and
  `RelayLink.LinkLosesNothingIff` say exactly when it loses none.
- `ReusableThread` keeps its promises exactly if at most one thread calls it (`WorkerThread.SafeIff`).
- Clearing an event leaves its event number (`CaenEvent.CaenOutputData.Clear`, `CaenEvent.CaenOutputData.Deserialize`).
- A controller with two entries that match an order rule executes the action twice, and the order of the commands below
  it is lost; `Dispatch.GroupsInOrderIff` says exactly when order is kept.
- A controller can look consistent although the leaves below it are in different states
  (`TreeState.InconsistencyStaysBelow`). If a leaf is included again, the checker of a controller further up can exclude
  it before the controllers between have noticed (`TreeState.CheckKeepsLeavesIff`,
  `Checkers.OrderDecidesInclusion`).
- Merging responses that both carry a text turns two successes into an error and two fatal errors into an ordinary one
  (`Responses.StatusIsMaxIff`). Then the grouping can matter (`Responses.GroupingMatters`); `Responses.GroupingIff` says
  exactly when it does for an entry, `Responses.MergeGroupingIff` for whole responses.
- The overall state of the modules can depend on the order of their names (`Modules.OrderMatters`);
  `Modules.OrderFreeIff` says exactly when it does not.

## Model

| member | source | states |
|---|---|---|
| FileWriter.ChunkedUnique | src/Modules/FileWriter/FileWriterModule.cpp:264-296 | A stream can be cut into full-buffer writes and a kept rest in one way only |
| FileWriter.Split | src/Modules/FileWriter/FileWriterModule.cpp:267-296 | A payload that does not fit fills the buffer and is written in pieces of exactly the buffer size; the loop ends and the kept tail is at most the buffer size |
| FileWriter.SplitTerminatesIff | src/Modules/FileWriter/FileWriterModule.cpp:283-293 | The split loop reaches its exit exactly if the buffer size is positive or there is no tail |
| FileWriter.Store | src/Modules/FileWriter/FileWriterModule.cpp:264-297 | Either branch for a payload keeps the stream of open file and buffer, and counts the bytes written |
| FileWriter.RotatedSizeBound | src/Modules/FileWriter/FileWriterModule.cpp:253-260 | A rotated file is larger than the limit by at most its last payload and holds exactly the payloads of its group |
| FileWriter.RotatedContents | src/Modules/FileWriter/FileWriterModule.cpp:253-260 | All rotated files together hold the payloads of their groups, none of which straddles two files |
| FileWriter.LoopHeadContents | src/Modules/FileWriter/FileWriterModule.cpp:244-301 | At every loop head: payloads popped = closed files, open file, buffer, in order |
| FileWriter.RotateKeepsLoopHead | src/Modules/FileWriter/FileWriterModule.cpp:253-260 | Rotation keeps what holds at the loop head, with one more closed file |
| FileWriter.PopKeepsLoopHead | src/Modules/FileWriter/FileWriterModule.cpp:262-300 | Taking a payload keeps what holds at the loop head |
| FileWriter.LeavingByStopBranch | src/Modules/FileWriter/FileWriterModule.cpp:248-251 | Leaving inside the wait writes everything popped to files |
| FileWriter.LeavingByLoopTest | src/Modules/FileWriter/FileWriterModule.cpp:244 | Leaving by the loop test leaves exactly the buffer unwritten |
| FileWriter.LoopTestLosesIff | src/Modules/FileWriter/FileWriterModule.cpp:244-251 | Leaving by the loop test loses bytes exactly if a payload of the open file is not empty |
| FileWriter.GroupsUnique | src/Modules/FileWriter/FileWriterModule.cpp:253-260 | The size limit determines which payloads go to which file |
| FileWriter.ReturnedUnique | src/Modules/FileWriter/FileWriterModule.cpp:225-302 | The contract of the writer leaves no choice: it determines every file, every write and the bytes lost |
| FileWriter.Flusher | src/Modules/FileWriter/FileWriterModule.cpp:225-302 | The consumer thread as a loop: for any payloads, sizes and way of leaving, it returns what the contract determines |
| FileNames.DecimalLonger | src/Modules/FileWriter/FileWriterModule.cpp:41 | Larger file numbers have no shorter decimal forms |
| FileNames.DecimalInjective | src/Modules/FileWriter/FileWriterModule.cpp:41 | Different file numbers have different decimal forms |
| FileNames.ExpandDiffers | src/Modules/FileWriter/FileWriterModule.cpp:53-62 | Expansions with different file numbers differ even though their pieces run into each other without separators |
| FileNames.NamesDistinct | src/Modules/FileWriter/FileWriterModule.cpp:27-67 | With a "%n" and dates of equal length, the names of one generator are pairwise distinct until the number wraps |
| FileNames.DistinctIff | src/Modules/FileWriter/FileWriterModule.cpp:82-87 | With a clock that stands still the names are distinct exactly if the pattern has a "%n" |
| FileNames.NamesRepeatAfterWrap | src/Modules/FileWriter/FileWriterModule.cpp:40-41 | After a wrap of the file number, names repeat if the date is the same |
| FileNames.YieldsUnique | src/Modules/FileWriter/FileWriterModule.cpp:69-88 | The check accepts exactly the patterns in which all four fields occur, reading the pattern as `next` does |
| FileNames.TokensIff | src/Modules/FileWriter/FileWriterModule.cpp:53-61 | The tokens of a pattern are the only ones that spell it with a plain "%" at most at its end |
| FileNames.NameText | src/Modules/FileWriter/FileWriterModule.cpp:29-62 | A name token by token: which file number and which reading of the clock each field shows |
| FileNames.FileGenerator.Next | src/Modules/FileWriter/FileWriterModule.cpp:27-67 | One expansion: the name, the numbers used up, and the first unknown argument as an exception |
| FileNames.FileGenerator.NextPiece | src/Modules/FileWriter/FileWriterModule.cpp:56-61 | One step of the scanner: the text of the next token, or its unknown argument |
| FileNames.FileGenerator.HandleArgument | src/Modules/FileWriter/FileWriterModule.cpp:29-51 | The value of a field; "%n" takes a number and "%D" a look at the clock |
| FileNames.Generate | src/Modules/FileWriter/FileWriterModule.cpp:27-88 | Over a whole life of one generator with an accepted pattern no name occurs twice |
| ChannelNames.SeparatedNeverMeet | src/Modules/FileWriter/FileWriterModule.cpp:147-160 | If a non-digit stands between any two of "%c", "%n" and, across runs, "%r", two generators of different channels or runs never share a name, with any number of fields, whatever dates of the format each of them reads, and across wraps |
| ChannelNames.ChannelsApartIff | src/Modules/FileWriter/FileWriterModule.cpp:27-67 | With one "%n" and any number of "%c": no two channels of a run can share a name, whatever dates of the format each of them reads, exactly if a non-digit cuts some "%c" off from the "%n" |
| ChannelNames.CutNeverMeet | src/Modules/FileWriter/FileWriterModule.cpp:147-160 | One such "%c" is enough, although the names may run into each other elsewhere |
| ChannelNames.AllApartIff | src/Modules/FileWriter/FileWriterModule.cpp:27-67 | With each field once: no two generators, of one run or of any runs, can share a name exactly if a non-digit stands between any two of the fields |
| ChannelNames.NeighboursIff | src/Modules/FileWriter/FileWriterModule.cpp:27-67 | If "%c" and "%n" are neighbours, a given number of channels and range of file numbers is safe, whatever dates are read, exactly if the numbers of the first field do not pass 10 or those of the second have one digit |
| ChannelNames.AcceptedPatternMeets | src/Modules/FileWriter/FileWriterModule.cpp:69-88 | A pattern with all four fields under which channels 1 and 11 share a name |
| ChannelNames.TwoNumbers | src/Modules/FileWriter/FileWriterModule.cpp:40-44 | Different pairs of numbers with the same joined decimal forms differ in both, and need a first one from 11 and a second one from 10 on |
| Codec.RoundTrip | src/Common/CaenOutputFormat.hpp:66-136 | Decoding an encoding anywhere in a buffer gives the event and the position after it |
| Codec.LayoutIff | src/Common/CaenOutputFormat.hpp:66-98 | Every byte of an encoding by its position, which depends on lengths only: number, timestamp, device, count, and for each channel its number and both vectors, all lowest byte first; and only these bytes are an encoding |
| Codec.DecodeIff | src/Common/CaenOutputFormat.hpp:102-136 | Decoding gives an event exactly where one is laid out in this way, and the position after it |
| Codec.Canonical | src/Common/CaenOutputFormat.hpp:102-136 | Decoding succeeds with an event and a position exactly if the bytes between are its encoding; the position is never 0 |
| Codec.TruncationRejected | src/Utils/Binary.hpp:204-214 | Every strict prefix of an encoding is rejected |
| Codec.EncodingInjective | src/Common/CaenOutputFormat.hpp:66-98 | Different events have different encodings, even with more bytes behind them |
| Codec.ReadVectorAccepts | src/Common/CaenOutputFormat.hpp:120-127 | A length-prefixed vector is read back from its encoding |
| Codec.ReadVectorFinds | src/Common/CaenOutputFormat.hpp:120-127 | A vector read stands in the buffer as its encoding; the byte count cannot wrap around unnoticed |
| Codec.ReadNumberIff | src/Utils/Binary.hpp:204-214 | A number is read exactly if its little-endian bytes stand there in full |
| CaenEvent.OverwriteTwice | src/Utils/Binary.hpp:190-199 | Two writes in a row have the effect of one write of both |
| CaenEvent.OverwriteStores | src/Utils/Binary.hpp:190-199 | A write byte by byte: the new bytes in their place, the old ones elsewhere, zeros where there were none |
| CaenEvent.OverwriteThenTrim | src/Common/SerializableFormat.hpp:77-87 | After trimming nothing is left of what the buffer held before |
| CaenEvent.Binary.constructor | src/Utils/Binary.hpp:57-70 | A copy of the bytes, or an error for a null pointer |
| CaenEvent.Binary.Memwrite | src/Utils/Binary.hpp:190-199 | Stores bytes in place, growing the buffer; an exception exactly if they do not fit, and then no change |
| CaenEvent.Binary.Memread | src/Utils/Binary.hpp:204-214 | Reads exactly if all the bytes are there |
| CaenEvent.CaenOutputData.Serialize | src/Common/CaenOutputFormat.hpp:66-98 | Lays the event out over what was there; 0 exactly on failure, with an empty buffer |
| CaenEvent.CaenOutputData.Deserialize | src/Common/CaenOutputFormat.hpp:102-136 | Fills the object exactly if an event is laid out in the buffer; 0 exactly on failure, with a cleared object except for the event number |
| CaenEvent.CaenOutputData.Clear | src/Common/CaenOutputFormat.hpp:59-63 | Clears all but the event number |
| CaenEvent.CaenOutputData.SerializeToBuffer | src/Common/SerializableFormat.hpp:77-87 | The byte buffer is exactly the encoding, whatever longer or shorter bytes it held before |
| CaenEvent.CaenOutputData.DeserializeFrom | src/Common/SerializableFormat.hpp:59-67 | Takes over received bytes; a null pointer is refused and the event kept |
| CaenEvent.CaenOutputData.DeserializeFromBuffer | src/Common/SerializableFormat.hpp:91-97 | Succeeds exactly if the buffer decodes, and then holds that event |
| CaenEvent.Transfer | src/Common/SerializableFormat.hpp:59-97 | What one object serialises, another one takes over unchanged |
| EventBuilder.OfferedAndSeen | src/Modules/EventBuilder/EventBuilderModule.cpp:59-112 | Numbers offered to the queue are consecutive from 0 or 1; those the consumer sees are an increasing selection, and a prefix if the queue was never full |
| EventBuilder.EventsAreWhole | src/Modules/EventBuilder/EventBuilderModule.cpp:70-75 | Every event is built once, from one fragment per channel with its number; every message sent has the bytes of such an event, fragment by fragment, and no others |
| EventBuilder.MessagesJoinEvents | src/Modules/EventBuilder/EventBuilderModule.cpp:70-82 | The same of the messages in any run, whatever the numbers are: the j-th fragment stands where the lengths of those before it add up to |
| EventBuilder.ReceiveOutcome | src/Modules/EventBuilder/EventBuilderModule.cpp:94-110 | Which numbers are fatal, where any other fragment goes, and when its number is offered to the queue |
| EventBuilder.QueueFits | src/Modules/EventBuilder/EventBuilderModule.cpp:56 | The queue never holds more numbers than it has room for |
| EventBuilder.RunningConsumerSends | src/Modules/EventBuilder/EventBuilderModule.cpp:61-82 | While the builder runs, the front number of the queue is built and its message sent within five steps |
| EventBuilder.StoppedConsumerDiscards | src/Modules/EventBuilder/EventBuilderModule.cpp:61-69 | After a stop a waiting number is read and given up, and its fragments stay in the map |
| EventBuilder.StopEndsConsumer | src/Modules/EventBuilder/EventBuilderModule.cpp:61-85 | After a stop the consumer ends within seven steps, whether messages can be sent or not |
| EventBuilder.Conservation | src/Modules/EventBuilder/EventBuilderModule.cpp:71-75 | Fragments received = fragments in the map + n for each event built |
| EventBuilder.RunKeepsInv | src/Modules/EventBuilder/EventBuilderModule.cpp:52-115 | The invariant of both threads holds after any interleaving |
| EventBuilder.CompleteIff | src/Modules/EventBuilder/EventBuilderModule.cpp:105-108 | The size test recognises exactly the numbers that every channel has delivered |
| EventBuilder.NextComplete | src/Modules/EventBuilder/EventBuilderModule.cpp:100-108 | A newly complete number is the successor of the last one |
| EventBuilder.StopBuildsNothing | src/Modules/EventBuilder/EventBuilderModule.cpp:61-69 | After a stop no further event is built unless the consumer had already decided to build one |
| EventBuilder.StopFinishesIff | src/Modules/EventBuilder/EventBuilderModule.cpp:61-75 | After any run that was stopped: all events accepted by the queue can still be built exactly if the queue is empty and the consumer has read no number, unless it has already decided to build it |
| EventBuilder.StopLeavesCompleteEvent | src/Modules/EventBuilder/EventBuilderModule.cpp:61-69 | For every capacity of the queue: a run that is stopped with a complete event in the queue, which no continuation builds |
| EventBuilder.InSequenceContinuesIff | src/Modules/EventBuilder/EventBuilderModule.cpp:100-103 | An accepted number continues its channel without repeating one exactly if it is not a later 0 |
| EventBuilder.UnmixedIffFresh | src/Modules/EventBuilder/EventBuilderModule.cpp:104-106 | The fragments pending under a number stay from different channels exactly if none of the channel of the new one is among them |
| EventBuilder.GuardedEventsAreWhole | src/Modules/EventBuilder/EventBuilderModule.cpp:59-112 | In every run whose receptions satisfy that guard, with any sequence numbers, every event built is one fragment of every channel |
| EventBuilder.RepeatedZeroMixesEvents | src/Modules/EventBuilder/EventBuilderModule.cpp:100-108 | For every capacity: a repeated number 0 fails the guard and completes an event that another channel did not contribute to |
| EventBuilder.Builder.Receive | src/Modules/EventBuilder/EventBuilderModule.cpp:94-110 | Receiving a fragment does the receive step of the model |
| EventBuilder.Builder.Write | src/Modules/EventBuilder/EventBuilderModule.cpp:107 | A full queue refuses the number and nobody notices |
| EventBuilder.Builder.ReceivePass | src/Modules/EventBuilder/EventBuilderModule.cpp:92-111 | A pass over the channels is the run of their receptions, up to a fatal error |
| EventBuilder.Builder.Build | src/Modules/EventBuilder/EventBuilderModule.cpp:70-75 | The loop joins the fragments of an event in order, each at its offset, and removes them |
| EventBuilder.Builder.Consume | src/Modules/EventBuilder/EventBuilderModule.cpp:61-85 | Each part of the consumer loop does the consumer step of the model |
| WorkerThread.OneCallerSafe | src/Utils/ReusableThread.hpp:47-104 | One caller: tasks run once and in order, the stored task is not replaced while in use, readiness means finished, destruction loses none |
| WorkerThread.RoundCompletes | src/Utils/ReusableThread.hpp:69-98 | A task given to a free thread is accepted, run and finished, and the thread is free again |
| WorkerThread.BusyRefuses | src/Utils/ReusableThread.hpp:69-76 | A busy thread refuses a task |
| WorkerThread.IdleWorkerReturns | src/Utils/ReusableThread.hpp:92-100 | A worker without a task comes back to look for one |
| WorkerThread.DestructionEnds | src/Utils/ReusableThread.hpp:47-57 | The destructor of an idle thread ends the worker and returns |
| WorkerThread.SecondTaskLost | src/Utils/ReusableThread.hpp:69-71 | Two callers: an accepted task never runs and the object is destroyed |
| WorkerThread.SafeIff | src/Utils/ReusableThread.hpp:41-104 | The promises hold in every run exactly if at most one thread calls |
| CaenNaming.NextFiles | src/Modules/CaenFileWriter/CaenFileWriterModule.cpp:96-131 | The naming loop stops at the first number that decides, with distinct names that do not exist unless overwriting is allowed, or with an error and no names |
| CaenNaming.OutcomePromised | src/Modules/CaenFileWriter/CaenFileWriterModule.cpp:119-163 | What a caller can rely on for each policy and each error |
| CaenNaming.OutcomeMeans | src/Modules/CaenFileWriter/CaenFileWriterModule.cpp:119-163 | Exactly which names lead to which error, which are accepted, and which numbers are passed over |
| CaenNaming.HasDuplicate | src/Modules/CaenFileWriter/CaenFileWriterModule.cpp:136-140 | The test for equal names |
| CaenNaming.AnyExists | src/Modules/CaenFileWriter/CaenFileWriterModule.cpp:141-148 | The test for names that exist |
| CaenNaming.TerminatesIfDisjoint | src/Modules/CaenFileWriter/CaenFileWriterModule.cpp:96-130 | With different names for different numbers the loop ends after at most one round more than there are files |
| CaenNaming.ConstantNamesTerminateIff | src/Modules/CaenFileWriter/CaenFileWriterModule.cpp:128-163 | With a pattern without a number, exactly when the loop ends |
| CaenFileWriter.WriterKeepsPromises | src/Modules/CaenFileWriter/CaenFileWriterModule.cpp:659-770 | Over any starts, stops and run changes: events written are the first accepted ones of each session in order, no file set exceeds its limit, the total stays within its limit |
| CaenFileWriter.CurrentFilesHoldTheirEvents | src/Modules/CaenFileWriter/CaenFileWriterModule.cpp:728-757 | Open streams match the file names one to one and the files hold exactly their events, also after a pause |
| CaenFileWriter.LimitIsFinal | src/Modules/CaenFileWriter/CaenFileWriterModule.hpp:189-196 | After the total limit nothing is written in any later session or run |
| CaenFileWriter.ErrorLastsUntilStart | src/Modules/CaenFileWriter/CaenFileWriterModule.cpp:706-707 | After any error nothing is written until the next start |
| CaenFileWriter.WrittenIff | src/Modules/CaenFileWriter/CaenFileWriterModule.cpp:704-747 | An arriving event is written exactly if there was no error, new names were found if needed, and all files could be opened if they were not open |
| CaenFileWriter.OpenFailureLosesNextEvent | src/Modules/CaenFileWriter/CaenFileWriterModule.cpp:165-184 | A run in which the files of one event cannot be opened and the next event of the session, whose files could be, is lost |
| CaenFileWriter.StartKeepsInv | src/Modules/CaenFileWriter/CaenFileWriterModule.hpp:189-214 | A start, of the same or of a new run, keeps the invariant |
| CaenFileWriter.StopKeepsInv | src/Modules/CaenFileWriter/CaenFileWriterModule.cpp:666-697 | Stopping keeps the invariant under every policy |
| CaenFileWriter.EventKeepsInv | src/Modules/CaenFileWriter/CaenFileWriterModule.cpp:699-768 | A payload keeps the invariant on every path |
| CaenFileWriter.RunKeepsInv | src/Modules/CaenFileWriter/CaenFileWriterModule.cpp:659-770 | The invariant holds after any sequence of actions |
| CaenFileWriter.NumbersGrow | src/Modules/CaenFileWriter/CaenFileWriterModule.cpp:670-675 | Within a run, without trimming and until the counter wraps, every search starts above every number at which an earlier set was named |
| CaenFileWriter.NamedAt | src/Modules/CaenFileWriter/CaenFileWriterModule.cpp:96-131 | A set gets the names of the number at which the search ended |
| CaenFileWriter.StopOutcome | src/Modules/CaenFileWriter/CaenFileWriterModule.cpp:666-697 | The file number, names and files after a stop, by arithmetic, for each policy |
| CaenFileWriter.NewRunStarts | src/Modules/CaenFileWriter/CaenFileWriterModule.hpp:189-214 | A new run starts from number 0 without names, events or channels; the same run goes on as it was |
| CaenFileWriter.SetClosesIff | src/Modules/CaenFileWriter/CaenFileWriterModule.cpp:744-759 | After an event a set is closed exactly if it has its share or the total limit is reached |
| CaenFileWriter.IdleRoundIff | src/Modules/CaenFileWriter/CaenFileWriterModule.cpp:666-697 | Exactly when a session without events leaves the file number as it is, for each policy |
| CaenFileWriter.IdleRoundsRewind | src/Modules/CaenFileWriter/CaenFileWriterModule.cpp:680-692 | Any number of idle sessions after a trimmed one take the number back by one each, down to 0 |
| CaenFileWriter.FullSetIsReplaced | src/Modules/CaenFileWriter/CaenFileWriterModule.cpp:680-692 | A run from the beginning in which the full file set with number 0 is replaced by a single later event |
| CaenFileWriter.ClosedSetsAreKept | src/Modules/CaenFileWriter/CaenFileWriterModule.cpp:659-770 | Unless files may be overwritten: over any starts, stops and run changes every set closed because it was full, or otherwise without being deleted, keeps its files with exactly its events |
| CaenFileWriter.FullSetsAreKept | src/Modules/CaenFileWriter/CaenFileWriterModule.cpp:659-770 | Unless files may be overwritten: under every policy, a set that got its full share keeps its files with exactly its events |
| CaenFileWriter.AllSetsAreKept | src/Modules/CaenFileWriter/CaenFileWriterModule.cpp:659-770 | Without overwriting, deleting and failures to open, every set keeps its files with exactly its events |
| CaenFileWriter.CarefulWithoutOverwriting | src/Modules/CaenFileWriter/CaenFileWriterModule.cpp:119-131 | Unless files may be overwritten, new names never meet those of a set that still has its files |
| CaenFileWriter.RunKeepsSets | src/Modules/CaenFileWriter/CaenFileWriterModule.cpp:659-770 | With any policy, sets that new names do not meet are kept |
| CaenFileWriter.OverwritesIff | src/Modules/CaenFileWriter/CaenFileWriterModule.cpp:717-747 | Any set whose files still hold its events keeps them through an event in new files exactly if no name is shared or the set holds just the same event |
| CaenFileWriter.ChannelWriter.Start | src/Modules/CaenFileWriter/CaenFileWriterModule.hpp:189-196 | The write state at a start, keeping the invariant |
| CaenFileWriter.ChannelWriter.FinishRun | src/Modules/CaenFileWriter/CaenFileWriterModule.hpp:198-214 | The end of a run resets the state and clears the last files if so configured |
| CaenFileWriter.ChannelWriter.RemoveFiles | src/Modules/CaenFileWriter/CaenFileWriterModule.hpp:203-207 | Removes exactly the current files |
| CaenFileWriter.ChannelWriter.Receive | src/Modules/CaenFileWriter/CaenFileWriterModule.cpp:699-769 | One payload does the step of the model with the names that the naming loop gives, and keeps the invariant |
| CaenFileWriter.ChannelWriter.GenerateNames | src/Modules/CaenFileWriter/CaenFileWriterModule.cpp:717-727 | New names are taken if there are none |
| CaenFileWriter.ChannelWriter.OpenFilesInOrder | src/Modules/CaenFileWriter/CaenFileWriterModule.cpp:165-184 | Opens the files one by one; a failure leaves those before it created and is an error |
| CaenFileWriter.ChannelWriter.FlushEvent | src/Modules/CaenFileWriter/CaenFileWriterModule.cpp:744-747 | The event goes to every open stream and is counted once |
| CaenFileWriter.ChannelWriter.Stop | src/Modules/CaenFileWriter/CaenFileWriterModule.cpp:666-697 | Stopping under the three policies, or by the loop test under none, keeping the invariant |
| QueueReceiver.ReceiverIsFifo | src/Core/Receiver.cpp:56-105 | Messages taken = read out + queue + in hand, in order, except at most the last message of each stopped session |
| QueueReceiver.ReadTakesOldest | src/Core/Receiver.cpp:56-75 | Reading takes the oldest message, and fails on an empty queue only |
| QueueReceiver.RoundQueues | src/Core/Receiver.cpp:90-95 | A message that arrives gets into the queue in the same round if there is room |
| QueueReceiver.FullQueueWaits | src/Core/Receiver.cpp:93 | A full queue makes the handler try again with the same message |
| QueueReceiver.StopEndsHandler | src/Core/Receiver.cpp:77-105 | A stop ends the handler within four steps, and it can be started again |
| QueueSender.SenderIsFifo | src/Core/Sender.cpp:57-95 | Messages accepted = handed to the chained sender, taken or not, + on the way + queue, in order |
| QueueSender.RoundHandsOver | src/Core/Sender.cpp:78-86 | In one round the oldest message is handed to the chained sender |
| QueueSender.SendQueues | src/Core/Sender.cpp:57-58 | Sending puts a message behind the others exactly if there is room |
| QueueSender.StopEndsSender | src/Core/Sender.cpp:65-95 | A stop ends the handler within five steps, and it can be started again |
| RelayLink.LinkConserves | src/Core/Sender.cpp:77-86 | From end to end: messages accepted = handed over + on the way + queue, in order; those handed over = taken by the receiving relay + on the bounded wire, with the refused ones in between |
| RelayLink.LinkLosesNothingIff | src/Core/Sender.cpp:81-83 | A link loses nothing exactly if no hand-over was refused and no session gave up a message; otherwise exactly as many messages are missing |
| RelayLink.LosingStepsIff | src/Core/Sender.cpp:77-86 | A link loses nothing exactly if no hand-over met a full wire or a refusal and no handler met the stop flag after a failed write; otherwise one message for each such step |
| RelayLink.FullWireLoses | src/Connections/Local/LocalSender.cpp:29-35 | For every size of the wire and any messages: while nobody takes any off the wire, all are accepted, and those that do not fit are lost without any stop |
| RelayLink.EverythingCanArrive | src/Core/Sender.cpp:77-86 | Any messages can go all the way through a link, in order |
| QueueReceiver.StepKeepsInv | src/Core/Receiver.cpp:77-105 | Every step of the receiving relay keeps its invariant |
| Dispatch.CallsAreExpected | scripts/Control/nodetree.py:106-188 | In every run each leaf is called at most as often as the submissions along its path multiply to, and exactly as often if nothing raises or the action has no rule |
| Dispatch.PlanCalls | scripts/Control/nodetree.py:106-151 | The tasks given to the thread pool call each leaf exactly as often as expected, with the types of its own entries |
| Dispatch.LeafCalls | scripts/Control/nodetree.py:111-151 | In every run without exceptions a leaf is called, each time its controller is, with the types of each matching entry, or with none if it has no entries or there is no rule, and in no other way |
| Dispatch.SingleMatch | scripts/Control/nodetree.py:119-134 | A leaf with one matching entry is called once: without types, with the one, or with the list by which the entry is qualified |
| Dispatch.MatchingCount | scripts/Control/nodetree.py:114-134 | For each child and types, as many submissions as entries of the kind that pass on these types |
| Dispatch.UnknownStateRaises | scripts/Control/nodetree.py:152-158 | A run in which a leaf is in an unknown state raises an exception |
| Dispatch.ExceptionHasCause | scripts/Control/nodetree.py:152-188 | An exception comes from an unknown state or from a command |
| Dispatch.ExceptionSkipsLaterGroups | scripts/Control/nodetree.py:133-134 | After an exception below one child, children whose groups come later need not be called |
| Dispatch.StagesOne | scripts/Control/nodetree.py:110-147 | The groups of a controller hold for each child exactly its submissions |
| Dispatch.RunCounts | scripts/Control/nodetree.py:109-151 | Interleaving and exceptions never add a call, and lose none that was submitted without waiting |
| Dispatch.UnorderedOnce | scripts/Control/nodetree.py:143-151 | An action without a rule calls each reachable included leaf exactly once, whatever raises |
| Dispatch.CommandsAreAllowed | scripts/Control/nodetree.py:107-188 | No leaf below an excluded node is commanded; each command is allowed by the state seen, and every command begun has ended |
| Dispatch.ExpectedIffAddressed | scripts/Control/nodetree.py:111-141 | A leaf is called at all exactly if every node on its path is included and submitted |
| Dispatch.GroupsInOrderIff | scripts/Control/nodetree.py:110-142 | At every level: the commands below one child have ended before any below another begins, in every run, exactly if no state allows the action, or the controller is not called, or is called once and the groups of the first child come before those of the second |
| Dispatch.RunInOrder | scripts/Control/nodetree.py:122-141 | A plan that keeps two parts apart keeps their commands apart in every run |
| Dispatch.BadRun | scripts/Control/nodetree.py:121-134 | A plan that does not has a run, without exceptions, in which commands that the states allow are mixed up |
| Dispatch.UntypedComeLast | scripts/Control/nodetree.py:135-141 | Children without types come after all the others |
| Dispatch.UnmatchedNeverCalled | scripts/Control/nodetree.py:111-120 | A child with types of which the rule names none is never called, nor is anything below it |
| TreeState.InclusionFollowsLeaves | scripts/Control/nodetree.py:200-220 | After a pass every controller is included exactly if a leaf below it is, and no leaf has changed |
| TreeState.StateIsLowest | scripts/Control/nodetree.py:221-238 | After a pass a controller has the lowest state of the included leaves below it and is inconsistent exactly if the states of its included children differ |
| TreeState.SecondPass | scripts/Control/nodetree.py:200-239 | A second pass changes nothing |
| TreeState.RoundWithIncluded | scripts/Control/nodetree.py:202-238 | A round with included children: the lowest of the states gathered, and what an unknown state leaves unchanged |
| TreeState.RoundWithoutIncluded | scripts/Control/nodetree.py:211-238 | A round without included children: everything below is excluded, and the states of all children count |
| TreeState.GatheredAre | scripts/Control/nodetree.py:202-210 | The states gathered, child by child, lists taken apart |
| TreeState.LeafStatesAre | scripts/Control/nodetree.py:202-210 | The states that count for a controller are those its included leaves report |
| TreeState.RankIs | scripts/Control/nodetree.py:221-222 | The rank of a state is its first place in the state machine |
| NodeTree.MarkedNode | scripts/Control/nodetree.py:86-96 | Including or excluding sets the flag of every node and changes nothing else |
| TreeState.ConsistentIffAllSame | scripts/Control/nodetree.py:223-238 | All included leaves are in the same state exactly if no included controller is inconsistent |
| TreeState.InconsistencyStaysBelow | scripts/Control/nodetree.py:202-208 | A controller can be consistent above an inconsistent one |
| TreeState.CheckKeepsLeavesIff | scripts/Control/nodetree.py:211-216 | Exactly when a single round of one checker leaves the leaves alone |
| TreeState.PassAt | scripts/Control/nodetree.py:200-239 | A pass over the tree is a pass over each of its parts |
| TreeState.PassReaches | scripts/Control/nodetree.py:84-109 | After a pass an action reaches exactly the included leaves |
| Checkers.AnyOrderEndsInPass | scripts/Control/nodetree.py:62-70 | With still leaves and no re-inclusion pending, the rounds of all checkers in any order end in the state of a pass, provided each controller has a round after those below it settled |
| Checkers.RoundsAlike | scripts/Control/nodetree.py:200-220 | Then no sequence of rounds changes a leaf or leaves a controller above an included leaf excluded |
| Checkers.SettledStays | scripts/Control/nodetree.py:200-239 | No round anywhere changes a part of the tree that has settled |
| Checkers.SingleStatesDecide | scripts/Control/nodetree.py:221-222 | If every leaf reports one known state, the states can be compared at every controller |
| Checkers.OrderDecidesInclusion | scripts/Control/nodetree.py:200-220 | A leaf included again below an excluded controller: the round of the root excludes it again, but after a round of the controller between it stays |
| ControlNode.Node.Mark | scripts/Control/nodetree.py:86-96 | Marks a node and all nodes below it, and nothing else |
| ControlNode.Node.Include | scripts/Control/nodetree.py:86-89 | Includes a node and all nodes below it |
| ControlNode.Node.Exclude | scripts/Control/nodetree.py:93-96 | Excludes a node and all nodes below it |
| ControlNode.Node.MatchingTasks | scripts/Control/nodetree.py:114-132 | The loops over children and entries find the submissions of one type, each with the types of its entry |
| ControlNode.Node.SubmitAll | scripts/Control/nodetree.py:121-134 | Submits a group of tasks and waits for it |
| ControlNode.Node.ExecuteAction | scripts/Control/nodetree.py:106-151 | Executing an action on the objects is the plan that the theorems are about |
| ControlNode.Node.TryAction | scripts/Control/nodetree.py:153-159 | The valid actions of a state or of a list of states; an unknown state raises |
| ControlNode.Node.GatherStates | scripts/Control/nodetree.py:202-210 | The states of the included children, lists flattened |
| ControlNode.Node.CheckRound | scripts/Control/nodetree.py:202-238 | One round of the checker on the objects |
| ControlNode.Node.CheckAll | scripts/Control/nodetree.py:200-239 | A pass over all controllers below a node |
| ControlNode.Summary | scripts/Control/nodetree.py:221-238 | The two counts find the lowest state and whether the states differ |
| Responses.MergeCommandResponses | src/Core/Command.cpp:367-484 | The merging loop gives for each module the merge of its two entries, and an error of the manager on a clash |
| Responses.MergeCommutes | src/Core/Command.cpp:367-484 | Merging does not depend on the order, even with clashes |
| Responses.MergeAssociates | src/Core/Command.cpp:367-484 | Merging replies of which any two agree does not depend on the grouping |
| Responses.MergeIdentity | src/Core/Command.cpp:369-376 | The empty response changes nothing |
| Responses.MergeKeys | src/Core/Command.cpp:431-474 | The merged response speaks of exactly the modules of both |
| Responses.MergeSlots | src/Core/Command.cpp:431-474 | Each module's entry is merged from its own two entries |
| Responses.MergedEntry | src/Core/Command.cpp:380-429 | Without a clash the more severe entry wins, and among equals the one with a text |
| Responses.MergedByImportance | src/Core/Command.cpp:380-429 | Any two entries, also with missing or unknown statuses: the more important one wins, and two texts or unknown statuses make an error, word by word |
| Responses.ClashIsReported | src/Core/Command.cpp:475-478 | A clash of modules replaces the manager's entry |
| Responses.StatusIsMaxIff | src/Core/Command.cpp:400-478 | The merged status is the more severe one exactly if the replies agree or it is an error anyway |
| Responses.FatalIsLost | src/Core/Command.cpp:409-412 | Two fatal errors with texts become an ordinary error |
| Responses.GroupingIff | src/Core/Command.cpp:380-429 | Exactly when the grouping of three entries does not matter: no two fatal texts meet a further fatal error, and no two texts of success an error, unless it is the same entry again |
| Responses.SlotGroupingIff | src/Core/Command.cpp:440-474 | The same for the entries of each module in three responses |
| Responses.GroupingMatters | src/Core/Command.cpp:409-412 | Of three fatal errors with texts only the one merged last survives |
| Responses.MergeGroupingIff | src/Core/Command.cpp:367-484 | Exactly when the grouping of three whole responses does not matter, in terms of their entries: for no module, nor for the manager, given where modules clash |
| Responses.OwnGroupingIff | src/Core/Command.cpp:380-478 | For each way in which modules can clash in the two merges of either grouping: which entries of the manager give the same result |
| Responses.ClashWithBothIff | src/Core/Command.cpp:440-474 | A module clashes with the merge of two responses exactly if it clashes with an entry that has not given way, or is an error with a text after a clash |
| Modules.GetStatesAsString | src/Core/ModuleManager.cpp:321-340 | "booted" exactly if every module is; otherwise the common state from the first other module on, or "inconsistent" |
| Modules.OrderMatters | src/Core/ModuleManager.cpp:326-338 | The same two states give different overall states in the two orders |
| Modules.OrderFreeIff | src/Core/ModuleManager.cpp:321-340 | The overall state is the same for every order of the modules exactly if none is booted, all are, or those that are not differ or are called "inconsistent" |
| Modules.OverallUnique | src/Core/ModuleManager.cpp:326-338 | The description of the overall state leaves no choice |
| Modules.GetModulesEligibleForCommand | src/Core/ModuleManager.cpp:353-376 | Exactly the modules in one of the states and of one of the types |
| Modules.ModuleManager.Stop | src/Core/ModuleManager.cpp:188-221 | The modules named become ready and the others stay; "Success" for each of them, or "Error" if none is named |
| Modules.ModuleManager.Unconfigure | src/Core/ModuleManager.cpp:279-312 | The modules named become booted and the others stay; "Success" for each of them, or "Error" if none is named |
| Modules.StopThenUnconfigure | src/Core/Command.cpp:236-244 | Stopping and then unconfiguring takes exactly the ready and running modules back |
| Modules.MergeDone | src/Core/Command.cpp:250 | The merged response reports every module of both steps |
| Modules.DownTakesBack | src/Core/Command.cpp:229-249 | For any types: when `down` is rejected, which modules end up booted, and which are reported |
| Modules.DownTakesAllBack | src/Core/Command.cpp:245 | All modules are booted afterwards exactly if each was already or is taken back |
| Modules.TakenBackTold | src/Core/Command.cpp:250-257 | The answer of an accepted `down`: "Success" without a text for the manager and for exactly the modules taken back |
| Modules.ModuleManager.Down | src/Core/Command.cpp:222-262 | `down` is rejected with "Error" and the overall state, without any effect, or takes the modules back, signals shutdown exactly if all are booted, and reports "Success" |
| Connections.TotalUpdate | src/Core/ConnectionManager.cpp:52-53 | Changing one module changes the sum over all modules by the difference |
| Connections.NothingLeftIff | src/Core/ConnectionManager.cpp:135 | Both counters are 0 exactly if there is no channel anywhere |
| Connections.SubManager.RemoveReceiverChannel | src/Core/ConnectionManager.cpp:162-166 | The counter stays right exactly if the channel was there; otherwise it is wrong and may wrap around |
| Connections.SubManager.RemoveSenderChannel | src/Core/ConnectionManager.cpp:157-161 | The same for senders |
| Connections.ConnectionManager.AddSubManager | src/Core/ConnectionManager.cpp:141-149 | A new module gets an empty sub-manager, a known one keeps its own |
| Connections.ConnectionManager.AddReceiverChannel | src/Core/ConnectionManager.cpp:27-55 | Adds a channel and counts it at both levels; a known channel or an exception changes nothing |
| Connections.ConnectionManager.AddSenderChannel | src/Core/ConnectionManager.cpp:57-85 | The same for senders |
| Connections.ConnectionManager.RemoveReceivers | src/Core/ConnectionManager.cpp:122-127 | The nested loops end with no receiver left and the counters right |
| Connections.ConnectionManager.RemoveSenders | src/Core/ConnectionManager.cpp:128-133 | The same for senders |
| Connections.ConnectionManager.RemoveChannel | src/Core/ConnectionManager.cpp:119-136 | Empties only the module named and tells exactly whether no channel is left anywhere |

## Left out

- Sockets, XML-RPC, supervisor, databases, metrics, graphical interfaces and configuration parsing: input and output
  against libraries that are not part of this model.
- Loading of shared libraries, `ModuleManager::unload`, and the hooks of user modules, which are taken not to throw.
- Failing allocations (`std::bad_alloc`), failing writes to files, and changes to the file system by others.
- `Binary` and the event format: the sample type is fixed to 16 bits and numbers are little-endian; `size_t` has 64 bits.
- Counters of the file writers, sizes and sequence numbers are unbounded, except the file numbers and the 64-bit sizes of
  the byte buffer, which wrap around as in the code. Channel counters wrap around when decremented below 0; their
  increments are unbounded, as there are fewer channels than a counter holds.
- EventBuilder.Builder.Receive: the previous numbers are one zero per channel, although the code allocates a single one
  and only reserves room for the others.
- EventBuilder.OfferedAndSeen: assumes that number 0 occurs at most as the first number of a channel, without which the
  numbers of a channel are not consecutive (`EventBuilder.InSequenceContinuesIff`); a number that wraps around to 0 falls
  under this, too. `EventBuilder.GuardedEventsAreWhole` does without.
- A fatal error of the event builder stops both threads at once. The statistics of the builder are not modelled.
- WorkerThread.OneCallerSafe: safety only; `WorkerThread.RoundCompletes` and `WorkerThread.DestructionEnds` show that a round
  and the destructor can end. A missed notification can leave the worker waiting, and a task that throws is not modelled.
- The event builder's threads, the worker thread and the queue relays are state machines on values: the update of atomic
  flags in place is one step each, and the inside of the lock-free queues is a bounded list whose failed write leaves the
  message intact.
- FileWriter.Flusher: with a buffer size of 0 only empty payloads, because the split loop never ends for others
  (`FileWriter.SplitTerminatesIff`); the wait for a payload is not modelled, only what was popped when the stop is seen.
- ChannelNames.ChannelsApartIff: speaks of all channel and file numbers; with the limits of a configuration, fields that
  only digits separate can still be apart (`ChannelNames.NeighboursIff` for fields without anything between them). For
  patterns with several "%n", and across runs with a field that occurs twice, there is only the sufficient condition
  (`ChannelNames.SeparatedNeverMeet`).
- CaenNaming.NextFiles: only calls for which the loop ends; in the other case there is nothing to return.
- CaenFileWriter.ChannelWriter.Receive: the naming loop has to end (`CaenNaming.TerminatesIfDisjoint` says when it does),
  and every file number has at least one name, as the code's four ways of splitting files give. `normalize_event`, the
  layouts of the four file formats and the time of day in names are not modelled. Which event goes to which files is.
- The size of a list of channels of an event is not bounded by what a vector of channel objects can hold; a larger count
  fails in both cases because the bytes are missing.
- Dispatch.CallsAreExpected: inclusion does not change while an action is under way; the states of leaves may. The results
  that executeAction collects and the requests to the process of a leaf are not modelled, and the thread pool runs tasks
  in any order.
- Checkers.AnyOrderEndsInPass: a round is one step, although the states of the children are read one after the other.
- TreeState.StateIsLowest: a leaf that reports an empty list of states, or a state that the state machine does not know,
  is outside of it; such a round of the checker ends its thread, which the model shows as no change of state.
- Responses.MergeCommutes: responses are texts, and every entry has one of the three statuses and a response. The merging
  itself also covers missing ones, except that reading a missing field of a constant response is undefined in the code
  and gives a missing field here.
- Modules.ModuleManager.Stop: modules are handled one after the other, while the code handles them in parallel and writes
  the common response without a lock; the connections that are stopped or removed are in `Connections.dfy`.
- Commands that configure, start or unload modules, and custom commands with their own states.
- Connections.ConnectionManager.AddReceiverChannel: the module has to have a sub-manager, which its construction ensures;
  starting and stopping channels is not modelled.

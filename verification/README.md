# Lindux, a Linda tuple space over pipes: a Dafny model

Clients type `output`, `read` and `input` commands. A client parses the text, sends binary messages
through a pipe, and one service thread per client decodes them and works on a tuple database that all
threads share. A thread whose `read` or `input` finds nothing queues itself and sleeps until an
`output` hands it a tuple. The project models that whole path and proves what it keeps.

Bytes are characters below 256, because the program uses `std::string` for text and wire alike.
Integers on the wire are little-endian with explicit 32- and 64-bit widths. A `double` is its IEEE 754
bit pattern with the IEEE comparison (NaN, two zeros); `std::to_string(double)` and `std::stod` are a
parameter, `FloatText`, and results that depend on them state what they need of it.

## How the files fit together

| file | part |
|---|---|
| `Types`, `Seqs` | values shared by all parts; facts about sequences |
| `Patterns`, `Numbers`, `PatternText` | matching, numbers as bytes and as text, pattern text |
| `Operators` | what each operator text in a pattern matches |
| `Codec`, `WireFormat` | the five binary messages and the cursor that reads them; their bytes, written out |
| `Terminator` | which messages hold no terminator, and what is known of one that was read |
| `Framing`, `Link`, `Receiving` | `MessageBuffer`, the read loop, sending, receiving tuples and patterns |
| `Cutting` | when the cutting of a stream into reads shows |
| `TupleSpace` | what one critical section computes, as functions of values |
| `Database` | the class `ServerDB` with its rows and its queue, proved against `TupleSpace` |
| `Others` | one command while other threads run any critical sections, in its middle too, and how it is woken |
| `Interleaving`, `Runs` | any number of threads, one label per critical section, and run histories |
| `Refinement`, `Serial` | the methods of `ServerDB` carry out the steps of `Interleaving`, and whole runs; steps with nothing in between are the commands of `TupleSpace` |
| `LostWakeups`, `Conservation`, `Overtaking` | theorems over all runs |
| `Embedding` | the commands of one thread in any run are those of `Others` |
| `Replies`, `Service`, `Delivery`, `Echo`, `Session` | what can be replied, the service thread, what it hears and answers, a client with its thread |
| `Requests` | which reads and inputs arrive as they were sent |
| `Farewell` | how the main loop of a thread goes on and ends, and how a client leaves |
| `Parser`, `Layout`, `PastEnd`, `Show` | the text languages |
| `Lines`, `Typed` | what lines mean word by word, which error each wrong one is, and what the user gets for a typed command |

`TupleSpace.Perform` is one command with nothing in between. `Others.PerformAmong` is one command while
the other threads run any of their critical sections, a `Turn`: some between the two critical sections
of the command, some behind them, which may wake it. The class methods are proved against the former,
the main loop and the session are stated with the latter. `Others.DisturbedIsUndisturbed` reduces it to
a command that nobody disturbs in its middle, with the others' steps moved before and behind it, and
`Embedding` shows that the commands of a thread in any run of `Interleaving` have this form. `Refinement`
and `Serial` tie the interleaving model to the methods and to `Perform`, and `Refinement.CarryOut`
carries out whole runs on the objects, so the theorems over all runs speak about what the methods
compute.

The functions that the theorems are stated with are tied to what they stand for where no name of the
model is left: `TupleSpace.MatchesElementwise` and `Operators` for matching, from the text of a pattern
to the numbers and strings it matches; `Patterns.OrderIsDecided` and `Patterns.NumericByFields` for the
bits of doubles; `WireFormat` for the bytes; `Lines` for words, brackets, quotes and errors; `Farewell`
for what ends a thread; `Typed` for a command from the text to the reply.

What a thread takes from its pipe is stated of the `Feed`: the messages its frames hold, `None` for a
frame that cannot be read. If all frames that are taken can be read, the outcome is exactly what they
say, however the bytes are cut; frames behind them do not matter. With unreadable frames among them
the code may block early, and `Cutting` says when it depends on the cutting.

## What the code does that its design does not suggest

* Searching and queueing are two critical sections, and so are offering and inserting. A waiter can be
  left asleep beside a tuple it asks for (`LostWakeups.WakeupsCanBeLost`). This happens in a run
  exactly if one of its steps inserts a tuple that a queued thread waits for, or queues a thread beside
  a tuple it waits for (`LostWakeups.StrandedIffStepStrands`), and then the output and the wait overlap
  in time (`LostWakeups.StrandedIffOverlapTakesEffect`).
* The empty tuple cannot be told from "not found". An `input` of it removes a copy and then waits
  (`Conservation.EmptyTupleCanVanish`); the account of copies has a term for that.
* The message terminator `$` (36) is not escaped. A write arrives exactly if no message of it holds the
  terminator (`Echo.HearWrite`); `output(36)` is lost and both sides wait for ever
  (`Echo.LoseThirtySix`). For reads and inputs the same holds (`Requests.RequestIsHeardIff`), for
  doubles in digits; a text of a double with the terminator in it could smuggle its message through
  (`Requests.DoubleCanSmuggleItself`). The other way round is safe: whatever bytes a service thread
  received, it replies in whole readable frames (`Echo.ServeAnyBytes`).
* A user's pattern `> =x` arrives as `>= x` (`PatternText.BuiltStringPatternSurvives` names the whole
  family). Integer patterns always survive. A request without the terminator is heard as the request
  with the rebuilt patterns (`Delivery.RebuiltCommandIsHeard`), and matched with these
  (`Session.RepliesAnswerTheirLines`).
* Frames that cannot be read make the read loop push onto a nonempty queue, and then it ignores that
  `push` refused the bytes (`Cutting.UnreadableFramesLoseBytes`). `Cutting.LosesNothingIff` and
  `Cutting.NoCuttingLosesBytes` say exactly when. Even one such frame makes the loop block in `read`
  while the next message is already queued (`Cutting.UnreadableFrameDelays`);
  `Cutting.CuttingDoesNotMatterIff` says exactly when the cutting matters. A refused byte can
  even make a message out of frames none of which is one (`Cutting.SplicedElementIsDelivered`). What a
  cutting delivers is found by counting terminators (`Cutting.PollDelivers`).
  Streams whose next frame can be read have none of these problems (`Link.PollIgnoresChunking`).
* `parseTupleElem` ignores what follows the list and `parsePattern` does not. Both index the text at
  `npos` when it ends behind a comma; the model makes that the error `IndexedPastEnd`, and
  `PastEnd.PastEndIff` says exactly which commands do it.
* A message of another type among the elements of a tuple or pattern makes `mainLoop` throw. Nothing
  catches that, so it ends the whole server process and not this thread alone; the model ends with
  `Aborted` there, the shared objects still valid.

## Model

| member | source | states |
|---|---|---|
| Patterns.OperatorsMean | src/tuple.cpp:18-58 | a pattern matches exactly the elements of its type that are below, the same as, or above its value as the operator says: as integers, as the numbers the doubles stand for (NaN is neither), or in the lexicographic order of strings |
| Patterns.OrderIsDecided | src/tuple.cpp:50-58 | a double equals itself iff not all its exponent bits are set with a fraction that is not zero, and two such doubles always compare |
| Patterns.NumericByFields | src/tuple.cpp:50-58 | the value of a double by its sign, exponent and fraction, doubling with each exponent |
| Patterns.DoubleOrderIsNumeric | src/tuple.cpp:50-58 | comparing bit patterns is comparing these values, for all doubles but NaN, which compares with nothing |
| Patterns.StringOrderIsLexicographic | src/tuple.cpp:30-38 | a string is less than another iff it is a proper prefix or smaller at the first difference |
| Patterns.SameBytesAreEqual | src/tuple.cpp:30-38 | the string order answers "same" for equal strings only |
| Patterns.BytesOrderMirrors | src/tuple.cpp:30-38 | it always decides, and `a < b` iff `b > a` |
| Patterns.BytesOrderIsTransitive | src/tuple.cpp:30-38 | it is transitive |
| Numbers.IntTextRoundTrip | src/serializer.cpp:66-78 | every 32-bit integer, -2^31 included, is read back by `stoi` from its `to_string` |
| Numbers.DecimalDigits | src/serializer.cpp:66-78 | the text of a nonnegative number is that of its tenth and its last digit |
| Numbers.NegativeDigits | src/serializer.cpp:66-78 | of a negative one with a minus in front |
| Numbers.DigitsCount | src/tuple.cpp:91-120 | the value of a digit string is ten times that of the digits in front and its last digit |
| Numbers.StoiReads | src/tuple.cpp:91-120 | `stoi` skips white space, takes one sign or none and the digits behind it, ignores the rest, and throws without a digit or out of range |
| Numbers.LittleEndian | src/serializer.cpp:3-6 | numbers are stored little-endian |
| Operators.IntPatternMeans | src/tuple.cpp:91-120 | `Int` of `==`, `!=`, `>`, `<`, `<=` or `>=` and a number n matches exactly the integers equal to, different from, above, below, up to, or from n on |
| Operators.IntTextMeans | src/tuple.cpp:91-120 | the same for every 32-bit n as `std::to_string` writes it |
| Operators.FloatPatternMeans | src/tuple.cpp:122-151 | the same for `Float` and the doubles, by their values |
| Operators.DoublesStand | src/tuple.cpp:50-58 | doubles are alike or below each other iff neither is NaN and their values are |
| Operators.StringPatternMeans | src/tuple.cpp:60-89 | the same for `String`, whatever blanks stand in front of the value |
| Operators.StringsStand | src/tuple.cpp:30-38 | a string is below another iff it is a proper prefix or has the smaller byte at the first difference |
| Operators.StarsMatchAll | src/tuple.cpp:60-125 | a star matches exactly the elements of the type |
| Operators.WrongPatternTexts | src/tuple.cpp:60-151 | a text without an operator in front is refused by each constructor |
| Operators.WrongValues | src/tuple.cpp:60-151 | so is one without a value behind it, with the error of its type |
| PatternText.StringPatternRoundTrip | src/tuple.cpp:60-89 | operator text and value give the same pattern back iff the value is nonempty, has no leading blank, and no leading `=` behind `>` or `<` |
| PatternText.BuiltStringPatternSurvives | src/serializer.cpp:59-80 | of the patterns the constructor builds, exactly those written `>` or `<`, blanks, `=` are changed on the wire |
| PatternText.IntPatternRoundTrip | src/tuple.cpp:91-120 | every integer pattern keeps operator and value (0 for All) and matches the same elements |
| PatternText.FloatPatternRoundTrip | src/tuple.cpp:122-151 | a float pattern survives iff its number survives its text and the text has no leading `=` behind `>` or `<`; of an All pattern the operator survives and the value becomes 0 |
| Codec.SerializeMessage | src/serializer.cpp:14-80 | each overload appends exactly the layout of its message: tag, fields, eight length bytes before a string |
| WireFormat.FourBytes | src/serializer.cpp:3-6 | the four bytes of a number, the least one first |
| WireFormat.EightBytes | src/serializer.cpp:3-6 | the eight bytes of a number, its lower half first |
| WireFormat.IntElemBytes | src/serializer.cpp:38-57 | an int on the wire is 32, 0, the four bytes of its two's complement, 36 |
| WireFormat.DoubleBytes | src/serializer.cpp:38-57 | a double is 32, 1 and its eight bytes |
| WireFormat.StringElemBytes | src/serializer.cpp:38-57 | a string is 32, 2, its length in eight bytes and its characters |
| WireFormat.PatternBytes | src/serializer.cpp:59-80 | a pattern is 8, 0 to 2 for its type, the length of its text in eight bytes, and the text |
| WireFormat.PatternTexts | src/tuple.cpp:3-12 | the text is the operator's and the value's, or a star |
| WireFormat.HeaderBytes | src/serializer.cpp:14-36 | a header is 64, the operation, and the number of items in four bytes; a connection message 128 and 1 or 0 |
| WireFormat.ResponseBytes | src/serializer.cpp:21-28 | the answer to a connection is 16, 1 or 0, and the two names, each with its length in front |
| WireFormat.RequestBytes | include/message.hpp:22-25 | a read is a header with operation 128, an input one with 64, and the patterns in order |
| WireFormat.TupleBytes | include/message.hpp:22-25 | an output is a header with operation 32, a reply one with 16, and the elements in order |
| WireFormat.OtherBytesAreSkipped | src/deserializer.cpp:127-152 | bytes other than 8, 16, 32, 64 and 128 in front of a message are skipped, and of themselves are none |
| WireFormat.UnknownBytes | src/deserializer.cpp:76-124 | element types from 3 on are refused, and any byte but 0 means a connection |
| Codec.CodecRoundTrip | src/deserializer.cpp:18-171 | behind any bytes without a tag and before any suffix, a serialised message is read back and the cursor is left exactly at the suffix; a pattern is read back as rebuilt from its text |
| Codec.PrefixesFail | src/deserializer.cpp:18-124 | no strict prefix of a serialised message can be read |
| Codec.ConcatenationIsUnique | src/serializer.cpp:14-80 | concatenated serialisations are those of one message list only |
| Codec.ReadElementsWereSent | src/deserializer.cpp:76-103 | whatever is read as an element is tagless bytes, that element serialised, and the rest |
| Codec.Reader.FindFirstMsgType | src/deserializer.cpp:127-152 | five finds and a minimum over the map are the search for the leftmost tag |
| Codec.Reader.DeserializeMessage | src/deserializer.cpp:154-171 | the cursor methods, bounds checks included, read what the functional decoder reads, and leave the cursor there |
| Framing.FramingIsExact | include/linda_common.hpp:55-61 | terminated messages are cut apart into the same list iff none contains the terminator |
| Framing.SplitLosesNothing | src/message_buffer.cpp:14-25 | frames, terminators and partial message together are the input |
| Framing.MessageBuffer.PushBytes | src/message_buffer.cpp:11-32 | a chunk enters as a whole iff the queue is shorter than the maximum, and then queue and partial message are those of the split |
| Framing.MessageBuffer.PopMessage | src/message_buffer.cpp:34-44 | the first message leaves the queue, if there is one |
| Framing.ChunkingDoesNotMatter | src/message_buffer.cpp:11-44 | after any pushes and pops: popped, queued and partial are the split of all accepted bytes |
| Framing.OnlyTheStreamMatters | src/message_buffer.cpp:11-44 | two uses that accepted the same stream and popped as often agree, wherever the bytes were cut |
| Framing.QueueIsBounded | src/message_buffer.cpp:14-31 | the queue is at most max - 1 + the terminators of the last chunk that entered |
| Framing.QueueIsBoundedBy611 | src/service_thread.cpp:12 | with 100 messages and 512-byte reads it never exceeds 611 |
| Framing.QueueReaches611 | src/message_buffer.cpp:14-31 | and 611 is reached |
| Link.FetchMessageFromBuffer | src/linda_common.cpp:32-47 | pops one frame and decodes it; an unreadable frame is dropped |
| Link.ReadFromPipeUntilMessageFound | src/linda_common.cpp:84-94 | the loop does what polling its chunks does, reads chunks of 1 to 512 bytes, and stops for want of a message only at an empty pipe |
| Link.PollIgnoresChunking | src/linda_common.cpp:49-94 | if the next frame of the stream can be read, it is delivered however the bytes are cut, none is refused, and the rest of the stream is left |
| Link.PollFollowsStream | src/linda_common.cpp:84-94 | if the next frame can be read, or no more frames are to come than the buffer holds: no byte is refused, what is delivered is the first readable message of the stream, and a call that blocks has dropped unreadable frames only |
| Cutting.LosesNothingIff | src/linda_common.cpp:49-53 | a receive loop loses no byte iff at each of its reads fewer frames than the maximum are waiting, counted by the terminators of the chunks before |
| Cutting.NoCuttingLosesBytes | src/message_buffer.cpp:11-32 | of at most 512 bytes no cutting loses one iff the first frame can be read or at most 100 frames end before the last byte |
| Cutting.UnreadableFramesLoseBytes | src/linda_common.cpp:49-53 | behind 512 bare terminators any next chunk is lost as a whole |
| Cutting.UnreadableFrameDelays | src/linda_common.cpp:84-94 | behind an unreadable frame the cutting matters: the same bytes deliver a message in two chunks, and leave it queued while the thread blocks in one |
| Cutting.PollDelivers | src/linda_common.cpp:84-94 | whatever the chunks and whatever is lost: the message delivered is the first readable one among the frames taken of the bytes that entered, and which bytes enter and how many frames are taken depends on the terminators in the chunks alone |
| Cutting.CuttingDeliversIff | src/linda_common.cpp:84-94 | any cutting of any stream delivers a message iff one of these frames can be read |
| Cutting.CuttingDoesNotMatterIff | src/linda_common.cpp:84-94 | of at most 512 bytes with a readable frame, all cuttings deliver the same message iff it is the first frame; with none, iff no cutting splices a readable frame together, and none does as long as at most 100 frames end before the last byte |
| Cutting.SplicedElementIsDelivered | src/message_buffer.cpp:11-32 | where bytes are lost even that fails: of a stream without a readable frame one cutting delivers an element |
| Link.SendMessage | include/linda_common.hpp:55-61 | appends the serialised message and the terminator to the pipe |
| Link.SendTuple | src/linda_common.cpp:55-75 | sends a header with the length and one message per element, in order |
| Link.SendPattern | src/linda_common.cpp:76-82 | the same for patterns |
| Receiving.ReceiveTuple | src/linda_common.cpp:96-111 | unless frames are unreadable and more are to come than the buffer holds: takes that many elements from the frames to come, or throws at a message of another type, and leaves the rest; blocks exactly if the frames end, and may block earlier only if a frame it takes cannot be read. In any case the elements can be sent again without a terminator |
| Receiving.ReceivePattern | src/linda_common.cpp:113-128 | the same for patterns, but for sending them again |
| TupleSpace.MatchesElementwise | src/server_db.cpp:100-111 | a pattern matches a tuple iff they are of one length and every element, the first included, has the type of its pattern and stands to its value as the operator says |
| TupleSpace.SameElementwise | src/server_db.cpp:113-123 | two tuples are the same iff they are of one length and all their elements are the same numbers or strings |
| TupleSpace.HoldingElementwise | src/server_db.cpp:16-28 | no equal tuple is stored iff no stored one of its length is alike in all elements |
| TupleSpace.NoneBeforeFits | src/server_db.cpp:35-67 | nothing stored before the place of the first match fits the pattern element by element |
| TupleSpace.FirstMatchElementwise | src/server_db.cpp:35-67 | what stands there fits element by element, and it alone is taken out; if nothing fits, nothing is |
| TupleSpace.RemainingEntries | src/server_db.cpp:71-83 | erasing the served waiters keeps exactly the others, pairwise distinct |
| TupleSpace.RemainingOrder | src/server_db.cpp:71-83 | each of them moves up by the number of erased ones in front of it, and none passes another |
| Database.RowSearchIsListSearch | src/server_db.cpp:35-67 | searching or erasing in the row of the pattern's length is searching or erasing in one list in insertion order |
| Database.RowMembers | src/server_db.cpp:19-26 | a tuple is in its row iff it is in the database |
| Database.RowLengths | src/server_db.cpp:27 | a row holds tuples of its own length only |
| Database.ServerDB.IsPatternEqualToTuple | src/server_db.cpp:100-111 | true iff lengths agree and every element has the type of its pattern and stands to its value as the operator says |
| Database.ServerDB.IsTupleAlreadyInDatabase | src/server_db.cpp:113-123 | the three typed comparisons together are equality of the elements, up to the length of the left tuple |
| Database.ServerDB.FindTuple | src/server_db.cpp:35-49 | the first match in insertion order, or the empty tuple; what is found fits element by element, and if nothing is and no empty tuple is stored, no stored tuple fits; the database does not change |
| Database.ServerDB.FindTupleAndRemoveIt | src/server_db.cpp:52-67 | the same, and exactly that copy is removed |
| Database.ServerDB.InsertTuple | src/server_db.cpp:16-28 | appends the tuple iff no equal one is stored, and says so |
| Database.ServerDB.InformWaitingThreads | src/server_db.cpp:69-85 | serves exactly the matching waiters up to and including the first matching input, unlocks and fills only these, keeps the others in order, and returns true iff there is such an input |
| Database.ServerDB.SweepQueue | src/server_db.cpp:71-83 | the loop with its erase and step back computes that |
| Database.ServerDB.AddTupleToDB | src/server_db.cpp:8-32 | with nothing in between, database and queue become those of a write; true iff an input took the tuple or none equal was stored |
| Database.ServerDB.Enqueue | src/server_db.cpp:88-91 | the thread stands last in the queue, the others stay |
| Database.ServerDB.Resume | src/server_db.cpp:94-97 | locks the token again and returns the passed tuple |
| Interleaving.TokenInvariant | src/service_thread.cpp:12-17 | in every reachable state: nobody is queued twice, a queued thread's token is locked, a token is unlocked just between delivery and resume, and the delivered tuple matches the request |
| Interleaving.NobodyElseIsStuck | src/server_db.cpp:87-98 | in every reachable state exactly the queued threads cannot take a step |
| Interleaving.AnyCommandMayFollow | src/service_thread.cpp:91-105 | which step may follow which: any command after a finished one, queueing after a search that found nothing, inserting after an offer that no input took |
| Interleaving.UnlocksLockedTokens | src/server_db.cpp:73-81 | an output unlocks locked tokens only, so none is unlocked twice |
| Interleaving.TimeInvariant | src/server_db.cpp:8-98 | in every reachable state: a stored match of a queued thread was inserted after its search and offered before it was queued |
| Runs.HistoryInvariant | src/service_thread.cpp:32-60 | every phase of a thread and every stored tuple go back to the steps that made them, with no step of that thread in between |
| LostWakeups.StrandedWaiterOverlaps | src/server_db.cpp:69-98 | a stored tuple matching a queued waiter comes from an output that overlaps the waiter's search and enqueue |
| LostWakeups.LostWakeupsAreOverlaps | src/service_thread.cpp:32-60 | a waiter is stranded beside a matching nonempty tuple iff such an overlap happened and both are still there |
| LostWakeups.StrandedIffOverlapTakesEffect | src/server_db.cpp:8-98 | a run strands somebody at some moment iff an output overlaps a wait that matches it, and right after the later of their last steps the tuple is stored and the waiter, who took no step since, is queued |
| LostWakeups.StrandedIffStepStrands | src/server_db.cpp:16-28 | a run strands somebody at some moment iff one of its steps inserts a nonempty tuple, equal to none stored, that a queued request matches, or queues a request that a stored nonempty tuple matches |
| LostWakeups.SeparateOperationsStrandNobody | src/server_db.cpp:8-98 | if no output of a matching tuple overlaps a waiter's search and enqueue, no state of the run strands anybody |
| LostWakeups.WakeupsCanBeLost | src/server_db.cpp:8-98 | a six-step run that does |
| Conservation.AcceptedTuplesAreConserved | src/server_db.cpp:8-85 | in every run, for every tuple: accepted outputs = copies stored + on their way to an input + returned by inputs (+ swallowed, for the empty tuple) |
| Conservation.ServedInputIsTaker | src/server_db.cpp:76-79 | of the threads an output serves only one is an input |
| Conservation.StoreHasNoEqualPair | src/server_db.cpp:16-28 | no reachable database holds two equal tuples |
| Conservation.RepliesAnswerTheirRequest | src/service_thread.cpp:32-60 | every tuple a client gets answers its last request, matches it, and was output by someone |
| Conservation.EmptyTupleCanVanish | src/service_thread.cpp:52 | an accepted empty tuple can be lost |
| Overtaking.MatchingOffersCount | src/server_db.cpp:69-85 | what is counted as matching outputs is the number of labels that offer a matching tuple |
| Overtaking.OfferMovesForward | src/server_db.cpp:69-85 | an output never moves a waiter back, and one that matches but does not serve it moves it forward |
| Overtaking.BoundedOvertaking | src/server_db.cpp:69-91 | a waiter at position i is served by the (i+1)-th later matching output at the latest, whatever else happens |
| Serial.SerialWrite | src/server_db.cpp:8-32 | offer and insert with nothing in between take database and queue where one write takes them |
| Serial.SerialRequest | src/service_thread.cpp:32-60 | search and enqueue with nothing in between do the same for one read or input, and the outcome is its answer |
| Refinement.SearchDatabase | src/server_db.cpp:35-67 | objects that represent a state represent the state after its search step, and the result is the step's outcome |
| Refinement.EnqueueParams | src/service_thread.cpp:37-41 | the same for setting the request and queueing |
| Refinement.InformWaiters | src/server_db.cpp:69-85 | the same for offering |
| Refinement.InsertIntoDatabase | src/server_db.cpp:16-28 | the same for inserting |
| Refinement.ResumeThread | src/server_db.cpp:94-97 | the same for resuming |
| Refinement.SpawnThread | src/service_thread.cpp:12-17 | the same for a new thread that locks its token |
| Refinement.ExitThread | src/service_thread.cpp:106-107 | a thread that ends leaves the shared objects as they are, its parameters are not queued, and nobody misses them |
| Refinement.Start | src/server_db.cpp:6 | the new database represents the empty state |
| Refinement.CarryOut | src/server_db.cpp:8-98 | every run, carried out by the methods label by label from the new database, ends in objects that represent the state of the run, and the clients learn the outcomes of the run |
| Others.WokenIsMatched | src/server_db.cpp:71-83 | whatever others do, a waiter that is woken was passed a tuple that matches its request and that one of them offered |
| Others.BetweenMovesAway | src/server_db.cpp:8-98 | steps of others between the two critical sections of a command can be moved out of it, those on the queue and those on the store to different sides, without a change in database, queue or answer |
| Others.DisturbedIsUndisturbed | src/service_thread.cpp:32-68 | the same with waking: a command disturbed in its middle and woken later is an undisturbed one among others that act before and behind it |
| Others.AnswersSuit | src/service_thread.cpp:32-68 | whatever others do, between the critical sections of the command too, every answer suits it, at once or after waiting |
| Others.SearchAmong | src/server_db.cpp:35-67 | the search and what others do behind it, on the objects, are the first half of the request |
| Others.AddAmong | src/server_db.cpp:8-32 | both critical sections of a write with others in between, on the objects, are the write around them |
| Embedding.RequestInRun | src/service_thread.cpp:32-60 | in every run, a read or input that found nothing and queued itself is the request among the others' steps since its search: the shared state is the same, its thread can resume iff there is an answer, and the client gets that answer |
| Embedding.WriteInRun | src/server_db.cpp:8-32 | in every run, a write that no input took is the write around the others' steps between its offer and its insertion |
| Others.ActAll | src/server_db.cpp:8-98 | other threads' critical sections on the objects move the database, and a waiter among the queued, as the specification says |
| Replies.ReceivedIsReplyable | src/service_thread.cpp:62-68 | a tuple received behind a header, with as many elements as it says, can be sent back |
| Replies.AnswersAreReplyable | src/service_thread.cpp:19-30 | a command keeps the database to tuples that can be sent, and its answer is one, whoever passed it on and whatever others do in between |
| Service.ServiceThread.constructor | src/service_thread.cpp:12-17 | a new thread's token is locked and its buffer empty |
| Service.ServiceThread.HandleRead | src/service_thread.cpp:32-45 | performs the read it heard around whatever others do between search and queueing: replies with the match or queues up. It hears what the frames to come spell, and leaves the rest, if the frames it takes can be read; if one cannot but the buffer can hold all to come, the same unless it starves early |
| Service.ServiceThread.HandleInput | src/service_thread.cpp:47-60 | the same for an input |
| Service.ServiceThread.ReplyAfterWait | src/service_thread.cpp:40-43 | the thread locks its token again and replies with the tuple it was passed |
| Service.ServiceThread.HandleWrite | src/service_thread.cpp:62-68 | the same for a write, around whatever others do between offer and insertion, and its empty reply; the elements it heard can be sent back, whatever the frames |
| Service.ServiceThread.HandleOperationMessage | src/service_thread.cpp:70-82 | chooses the handler by the operation, with the same result; any other operation is ignored |
| Service.ServiceThread.HandleMessage | src/service_thread.cpp:93-104 | a connection message goes on or ends the loop, an operation is handled, anything else is ignored; stated of the frames it takes, as for the handlers |
| Service.ServiceThread.MainLoop | src/service_thread.cpp:84-108 | with any critical sections of others between the two of each command, after each iteration and during each wait: in any case the replies are whole messages that can be read, and the database keeps to such tuples; if the frames it takes can be read, database, replies and the frames left are those of serving them one after the other; if the first frames are too few for a command and the buffer can hold them all, it starves and does nothing |
| Delivery.WireIsFed | include/linda_common.hpp:55-61 | messages without the terminator come out of the byte stream as the frames they were sent in, each holding its message, a pattern as it is rebuilt |
| Delivery.CommandIsHeard | src/service_thread.cpp:32-82 | the thread hears exactly the command that was sent, and no frame of the next |
| Delivery.RebuiltCommandIsHeard | src/service_thread.cpp:32-82 | of the bytes of a command whose messages hold no terminator it hears the command with its patterns rebuilt from their texts, and no frame of the next |
| Delivery.SendableIsAudible | src/serializer.cpp:59-80 | if its messages survive, that is the command itself |
| Requests.RequestIsHeardIff | include/linda_common.hpp:55-61 | a read or input is heard as it was sent iff every message of it survives, none holds the terminator, and their number fits into an int; provided the texts of its doubles hold neither terminator nor tag and are below 2048 bytes, as all that `std::to_string` writes |
| Requests.DoubleCanSmuggleItself | include/linda_common.hpp:55-61 | without that proviso it fails: a double whose text holds the terminator and its own message is heard all the same |
| Delivery.StrangeReplies | src/client.cpp:26-46 | what the client makes of a message that is no reply, of another operation, and of an empty reply |
| Delivery.AnswerIsHeard | src/client.cpp:26-41 | the client hears exactly the answer that was sent |
| Delivery.CommandsAreServedInOrder | src/service_thread.cpp:91-105 | commands sent in one go are heard and answered in order whatever others do, in the middle of each too, those that wait when others wake the thread; nothing behind the first that waits in vain is touched |
| Echo.HeardIsReplyable | src/service_thread.cpp:62-68 | whatever is heard as a write can be sent back without breaking framing |
| Echo.HearWrite | src/service_thread.cpp:91-105 | the thread hears a write as it was sent iff none of its messages holds the terminator and its length fits into an int; then it is performed and answered, whatever others do between offer and insertion |
| Echo.WriteIsHeardIff | include/linda_common.hpp:55-61 | the same of the frames its bytes complete |
| Echo.ServeAnyBytes | src/service_thread.cpp:84-108 | for any bytes a client sends and any cutting, whatever others do and whenever: the replies come out of the pipe as whole readable frames, and the database keeps only tuples that can be sent |
| Echo.LoseThirtySix | include/linda_common.hpp:57-58 | for any cutting of the bytes of `output(36)` the main loop starves, stores nothing and sends nothing |
| Farewell.ServeScript | src/service_thread.cpp:19-30 | the main loop answers every command, passes over a second connection request, unknown operations and stray messages, and hears a header of negative size as no items; it leaves at `ConnectionMessage(false)`, throws at a message of another type among the items, blocks where the messages end, and leaves what follows in the pipe |
| Farewell.ServeUntilGoodbye | src/service_thread.cpp:91-108 | the commands of a client are answered, and at `ConnectionMessage(false)` the loop ends with what follows left in the pipe |
| Farewell.ServeBehindHello | src/service_thread.cpp:19-25 | with `ConnectionMessage(true)` in front it is the same |
| Farewell.Leave | src/client.cpp:51-77 | a client at rest that leaves ends its thread, and database, pipes and buffers hold nothing of it |
| Session.Client.Disconnect | src/client.cpp:75-79 | sends `ConnectionMessage(false)` |
| Session.Client.HandleCommand | src/client.cpp:57-73 | sends the command, or nothing if an item is of the wrong kind |
| Session.Client.ReceiveReply | src/client.cpp:26-46 | the reply is what the next frames of the stream spell, and exactly these frames are taken, if they can be read; if one cannot but the buffer can hold all to come, the same unless it blocks early |
| Session.CommandHoldsItems | src/client.cpp:57-73 | operation 128 is a read, 64 an input, 32 an output, of all the items in their order |
| Session.ParsedLineIsCommand | src/client.cpp:60-70 | what the parser accepts never makes `std::get` throw |
| Session.NothingPending | src/message_buffer.cpp:11-32 | if no frame is to come and none is begun, buffer and pipe are empty |
| Session.Round | src/client.cpp:24-46 | one request and its reply, at once or when others have woken the waiting thread; the reply is that of the command as it is heard, among the others' steps in its middle and behind it, and pipes and buffers are empty before and after |
| Session.Interact | src/client.cpp:22-52 | for any lines whose commands hold no terminator, any cutting, and any critical sections of others in the middle of each command, after it and during its wait: the i-th reply answers the i-th line, at once or after waking, the database ends where the commands, with patterns as rebuilt from their texts, and the others take it, pipes and buffers are empty again; it ends early only at a command that nobody wakes |
| Session.RepliesAnswerTheirLines | src/client.cpp:26-46 | every reply answers its own line: the error of the parser, success for a write, for a read or input a tuple that satisfies the pattern of that line, as it is heard, element by element |
| Session.LinesArePerformed | src/client.cpp:23-25 | if every line is understood, the session is that of its commands as they are heard |
| Session.ShownTupleIsWritten | src/parser.cpp:3-79 | `output` with a shown tuple writes that tuple |
| Parser.ParseTupleElem | src/parser.cpp:34-79 | the cursor loop, which moves on with every item, reads what the recursive reader reads, errors included |
| Parser.ParsePattern | src/parser.cpp:81-149 | the same for patterns, with the test for what follows the list |
| Parser.Parse | src/parser.cpp:3-18 | the first word chooses between pattern and tuple text, anything else is an error; the result is that of the recursive reader |
| Lines.WordMeans | src/parser.cpp:92-133 | for any text without quotes and any blanks: `String("...")`, `Int("...")` and `Float("...")` behind `read` or `input` are what the constructor of string, integer or double patterns makes of the text |
| Lines.DigitsMean | src/parser.cpp:52-66 | digits in brackets behind `output` are the integer |
| Lines.DecimalMeans | src/parser.cpp:57-62 | digits around a point are the double that `std::stod` reads |
| Lines.QuotesMean | src/parser.cpp:43-48 | a text in quotes is the string |
| Lines.PairMeans | src/parser.cpp:41-75 | items keep their order |
| Lines.WrongLines | src/parser.cpp:3-40 | which error an unknown word or a missing bracket is |
| Lines.WrongItems | src/parser.cpp:41-149 | which error a wrong item, a wrong separator, or text behind the list is |
| Lines.WrongArguments | src/parser.cpp:93-100 | which error each wrong start of an argument is |
| Lines.WrongEnd | src/parser.cpp:101-103 | and a missing closing bracket |
| Typed.StoredIsFound | src/client.cpp:22-46 | typed `read(Int("==n"))` with (n) stored replies (n) and changes nothing; typed `input(Int("==n"))` takes the first copy out and leaves the others in order |
| Typed.MissingIsAwaited | src/service_thread.cpp:32-60 | with (n) not stored the user waits, last in the queue |
| Typed.WrittenIsStored | src/server_db.cpp:8-32 | typed `output(n)` that nobody waits for is stored behind all others unless it is there already |
| Typed.WaitersAreServed | src/server_db.cpp:69-85 | typed `output(n)` wakes the read and the input in front that wait for it, is not stored, and leaves the rest of the queue |
| Layout.ListIsRead | src/parser.cpp:41-75 | any blanks around commas and brackets give the same items, or the error of the first wrong item |
| Layout.OperandIsRead | src/parser.cpp:34-79 | the same in brackets; text behind the list is ignored for tuples and must be blank for patterns |
| Layout.EndBehindComma | src/parser.cpp:71-72 | a list that ends behind a comma makes the parser index past the end |
| PastEnd.PastEndIff | src/parser.cpp:3-149 | a command makes the parser index past its end iff its last nonblank character is a comma and, behind its first word and the opening bracket, a closing bracket appended to it ends a list that is read |
| PastEnd.OpenCommandIsPastEnd | src/parser.cpp:34-149 | every command whose items are read, each followed by a comma, without the bracket, in any layout, does it |
| Layout.PatternListIsBuilt | src/parser.cpp:81-149 | a list of quote-free pattern texts is read as what the constructors make of them, in order, or fails with the first that is refused |
| Layout.TupleLayoutIsRead | src/parser.cpp:34-79 | any layout of the element texts is read as the tuple |
| Show.Show | src/parser.cpp:20-32 | the loop and the replacement of the last two characters give the shown text |
| Show.ShowsOne | src/parser.cpp:20-32 | no elements show as `)`, one element between `( ` and ` )` |
| Show.ShowsNext | src/parser.cpp:20-32 | each further element comes behind ` , ` |
| Show.ElementTexts | src/parser.cpp:22-27 | integers are shown in decimal, strings in quotes |
| Show.ShowRoundTrip | src/parser.cpp:20-79 | for nonempty tuples without doubles: the shown text is read back iff integers are nonnegative and strings quote-free |
| Show.ShownTupleIsReadBack | src/parser.cpp:20-79 | with doubles too, if their text is digits, point, digits and reads back |

## Left out

- loguru and every logging call: no effect on results.
- FIFO, semaphore, poll, signal, pthread and UUID plumbing (`src/server.cpp`, `include/common.hpp`) and `Client::connect`: a pipe is assumed to deliver bytes in order, at least one and at most 512 in a read; failing reads and writes are not modelled.
- The console: prompts, `help`, printing. A reply is the value that is printed.
- `std::to_string(double)` and `std::stod`: the parameter `FloatText`. `stod` failing is one error, whatever exception it throws.
- Interleavings finer than one critical section, and the C++ rule that a mutex is unlocked by its owner: the token is a binary semaphore.
- Interleaving.InformStep: `informWaitingThreads` is one step, although `src/server_db.cpp:75-76` reads `isInput` after unlocking the waiter, which could by then have started a new request.
- Database.ServerDB.SweepQueue: the step back after erasing the first entry is `i - 1` on an index; the C++ iterator would be formally before `begin`.
- Blocking calls: a method that models one returns where the code would block (`None`, `Blocked`, `Starved`, `Waiting`), and `waitForTuple` is the pair `Enqueue` and `Resume`.
- Service.ServiceThread.MainLoop: which commands it hears is stated where the frames it takes can be read; with an unreadable frame among them that depends on how the pipe cuts the bytes (`Cutting.CuttingDoesNotMatterIff`), and what is stated for every cutting is the validity of the shared objects, the framing of the replies and the fitness of the stored tuples.
- Requests.RequestIsHeardIff: where the text of a double could hold the terminator or a tag it promises nothing, and `Requests.DoubleCanSmuggleItself` is the reason; `std::to_string` writes digits, a sign, a point, `inf` or `nan`, at most 317 characters. It is stated of the frames the bytes complete, in one direction also of the service thread (`Delivery.RebuiltCommandIsHeard` with `Service.ServiceThread.HandleNext`).
- Cutting.CuttingDoesNotMatterIff: streams of more than 512 bytes, which no single read delivers; there `Cutting.PollDelivers` says what each cutting delivers.
- Database.ServerDB.IsTupleAlreadyInDatabase: asks for a right tuple no shorter than the left one; it is only called within one row.
- A `bool` byte on the wire other than 0 and 1 is read as true; `isdigit` is called with bytes below 128 only in the C locale sense; `std::length_error` for huge strings does not occur.
- `cond_reader_` and the mutex of `MessageBuffer`: nobody waits on the one, and each buffer belongs to one thread.
- `receiveTuple` and the parser allocate without bound; memory exhaustion is not modelled.
- Connection set-up messages: `ConnectionMessage` and `ServerConnectionResponse` are in the codec; who sends them when is not modelled.

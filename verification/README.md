# Verified models of the POSIX protocol programs

The repository is a collection of small POSIX programs in C. This project models the ones that
contain real protocols and proves properties of them over all runs: every interleaving, every loss,
delay or duplication of a datagram, every order of completions, and interrupts at any moment.

- **File transfer over UDP** (`L2_3/file_client_udp.c`, `L2_3/file_server.c`): `Chunking`,
  `ConnectionTable`, `StopAndWait`, `Progress`, `FileTransfer`, `ServerLogs`, `Completion`,
  `FileClient`. The client cuts a file into numbered zero-padded chunks and retries each until its
  number is echoed; the server multiplexes clients through a slot table. `FileServer` and `DoClient` are
  the two programs as classes, arrays and loops; the theorems are about all reachable states of any
  number of clients and one server. A client's projection of the system (its *lane*) is a machine of its
  own, and every system step refines one step of one lane.
- **Asynchronous block reverser** (`Lab4/archunix5a.c`): `BlockGeometry`, `BlockPipeline`,
  `BlockResults`, `BlockEquivalence`. Three buffers rotate through the roles write, reverse and read
  while transfers move single bytes in any order. The class `Pipeline` is the program; its result is a
  function of the random draws alone, which is then compared with the plain program that reads, reverses
  and writes in turn.
- **Identifier hand-off** (`L2_4_Graded/server.c`): `Mailbox`. A barrier, a one-slot mailbox under a
  mutex and a condition variable with broadcast, and the same barrier again.
- **Ring of processes over pipes** (`Lab2_1/test2.c`): `RingCodec` for the length-prefixed decimal
  messages, `TokenRing` for fork, close, the circulating message and the shutdown.
- **Counting under locks** (`Lab3/prog18.c`, `Lab3/prog20.c`): `Balls`, `Students`. Increments are a read
  and a write; students may be cancelled at any time, which acts only at their sleep.
- **Admission control** (`L2_4/POSIX_sem_server.c`, `L2_4/POSIX_sem_client.c`): `Admission`.
- **Packets over a FIFO** (`Lab2_1/prog21_c.c`, `Lab2_1/prog21b_s.c`): `FifoDemux`.
- **Lazy deletion** (`Lab3/prog19.c`): `LazyDeletion`.

`Options`, `Bytes` (with `Division`) and `Tally` hold what the others share. The constants of the
programs (5 slots, 568 payload bytes, 6 attempts, 3 corners, 4 champions, 10 permits, `PIPE_BUF`) are
parameters. Runs are lists of actions, and `After` is the state a list leads to, if it can be taken.

## Where the code differs from what one would expect

- The block reverser is **not** equivalent to reading, reversing and writing one block after the other.
  A block is read before the block read just before it has been written back, so a read of just the
  place that one is about to go to sees old bytes (`HazardExample`, at random numbers the program can draw).
  `ProgramIsPlainExactly` gives the exact condition on the drawn block numbers, and
  `ProgramIsPlainWithoutHazard` a simpler sufficient one.
- Chunks are delivered at most once exactly when the network keeps the client's datagrams in order
  and the file has at least one full chunk (`AtMostOnceExactly`). A file of a single chunk can be
  delivered twice by a mere retransmission, because its slot has already been freed.
- The acknowledgement of the last chunk can be lost for good. Printing that chunk frees the slot, so a
  retransmission of it finds a new slot with count 0 and is dropped unanswered: a client whose file has
  been printed whole then tries in vain and gives up (`AcknowledgementCanBeLost`, for every file of at
  least one full chunk). `CanFinishExactly` says which clients can still be acknowledged when
  everything under way is lost.
- Slots are lost for ever in three ways (`SlotCanBeLost`): a client gives up before its last chunk; a
  client finishes and a late retransmission of its last chunk is allocated a new slot; or that happens
  and the client gives up (the last two where datagrams stay in order). `SlotIsReleasedExactly` says
  when a slot can still be given back. One time-out per successful transfer is enough to fill the table
  (`TableCanFillUp`), after which nobody else is ever served (`HeldTableBlocksTheServer`).
- The FIFO writer's buffer (line 23 of `Lab2_1/prog21_c.c`) is three bytes shorter than the packet it
  writes, and every pass of its loop stores beyond it, whatever the read returns (`EveryPassOverruns`).
  The model of the loop gives the buffer the packet's length.
- A client of the admission server cannot tell a denial from being served for 0xFFFF seconds
  (`TruthfulExactly`).

## Model

| member | source | states |
|---|---|---|
| Chunking.PacketCount | L2_3/file_client_udp.c:105-126 | a file becomes its length divided by the chunk size, plus one, packets; they are numbered from 1, only the final one is marked last, all payloads are full size |
| Chunking.Reassembly | L2_3/file_client_udp.c:110-117 | the payloads together are the file and its zero padding, and their text up to the first NUL is the file when it has no NUL |
| ConnectionTable.FindAllocatesAtMostOneFreeSlot | L2_3/file_server.c:81-99 | findIndex fails exactly when every slot is held by another address; an address with a slot keeps the table as it is, and one without is given the last free slot with count 0 |
| ConnectionTable.ServeOwnAddress | L2_3/file_server.c:114-132 | for the sender: delivered exactly when next in order, echoed exactly when not ahead, the count advanced, the slot freed on the last chunk, nothing at all when the table is full |
| ConnectionTable.ServeIsolatesClients | L2_3/file_server.c:81-132 | one datagram leaves every other address's count alone, and occupied slots keep distinct addresses |
| ConnectionTable.FileServer.constructor | L2_3/file_server.c:104-110 | the server starts with every slot free and arbitrary other contents |
| ConnectionTable.FileServer.FindIndex | L2_3/file_server.c:81-99 | the loop over the table computes the specified search and allocation |
| ConnectionTable.FileServer.HandleDatagram | L2_3/file_server.c:112-133 | one turn of the receive loop prints, echoes and changes the table as `ServeAll` of that datagram says, which OneDatagram and OneDatagramsCounts pin down |
| ConnectionTable.FileServer.DoServer | L2_3/file_server.c:101-135 | the receive loop on any sequence of datagrams does what `ServeAll` says, which PrintsInOrder and LoopCarriesOutRun pin down for whole sequences |
| ConnectionTable.OneDatagram | L2_3/file_server.c:112-133 | with a slot or a free slot to get, a datagram is printed exactly if its number is one more than the sender's count and sent back exactly if it is at most that; otherwise neither |
| ConnectionTable.OneDatagramsCounts | L2_3/file_server.c:112-133 | only the sender's count moves: by one when something is printed, to none when that was the last chunk |
| ConnectionTable.RetransmissionExample | L2_3/file_server.c:117-127 | the same first chunk twice is printed once and sent back twice |
| ServerLogs.PrintsInOrder | L2_3/file_server.c:101-135 | from a free table, whatever arrives from whomever in whatever order and number: what is printed for a client all of whose datagrams are packets of its file is whole copies of the file followed by as many packets as its present count |
| ServerLogs.LoopCarriesOutRun | L2_3/file_server.c:101-135 | fed the datagrams that arrive along any run of the transfer, the receive loop ends with that run's slot table and has printed and sent back for each client exactly what the run records |
| StopAndWait.StepKeepsSound | L2_3/file_server.c:114-127 | every step of a lane keeps the log a row of full copies and a prefix, the echoes truthful and the client at most one chunk ahead |
| StopAndWait.StepKeepsBound | L2_3/file_client_udp.c:119-125 | every step keeps the number of sends of each chunk within the limit |
| StopAndWait.StepKeepsOnce | L2_3/file_server.c:117-126 | in order and with at least two chunks, no step delivers a chunk again, not even after the slot was freed and allocated anew |
| FileTransfer.OtherLanesUnchanged | L2_3/file_server.c:81-133 | a step for one address changes nothing of any other address's transfer |
| FileTransfer.StepRefinesLane | L2_3/file_server.c:111-134 | every step of the whole system is a step of the lane of its address |
| FileTransfer.StopAndWaitInvariant | L2_3/file_server.c:114-127 | until the last chunk is delivered the server's count is the client's chunk number or one less and the log is exactly the first count chunks; an echo of c exists only after chunks 1 to c were delivered |
| FileTransfer.SessionsDeliverPrefixes | L2_3/file_server.c:109-133 | with any number of clients every log is whole copies of that client's chunks followed by a prefix of them as long as the current count |
| FileTransfer.ClientOutcomeIsTruthful | L2_3/file_client_udp.c:119-126 | an acknowledged transfer was delivered whole; giving up at a non-final chunk k means k-1 or k chunks were delivered; no chunk is sent more often than allowed, and one given up on was sent exactly that often |
| FileTransfer.InOrderDeliversOnce | L2_3/file_server.c:92-126 | on an in-order network a file of at least one full chunk has every chunk delivered at most once in the whole run |
| FileTransfer.FaultFreeRunDelivers | L2_3/file_client_udp.c:100-127 | from the initial state there is a run in which the file arrives once and the client ends acknowledged |
| FileTransfer.ReorderingRepeats | L2_3/file_server.c:92-126 | with reordering some run delivers a chunk twice, whatever the file: a retransmitted first chunk overtakes the original, which comes after the end |
| FileTransfer.DuplicationRepeats | L2_3/file_server.c:92-126 | so does a duplicate of the first chunk that comes after the end |
| FileTransfer.FinishedMeansFileIsThere | L2_3/file_server.c:119-124 | when a client has finished, the payloads printed for it up to the first NUL are its file, if that has no NUL |
| FileTransfer.RetransmissionRepeatsShortFile | L2_3/file_server.c:117-126 | a file shorter than one chunk can be delivered twice even in order |
| FileTransfer.AtMostOnceExactly | L2_3/file_server.c:92-126 | at-most-once delivery holds in all runs if and only if the network is in order and the file has a full chunk |
| StopAndWait.StepKeepsGoingOn | L2_3/file_client_udp.c:118-125 | every step keeps a ready client's attempts within the limit and everything printed echoed |
| StopAndWait.StepKeepsSentSoFar | L2_3/file_client_udp.c:109-126 | every step keeps the earlier chunks sent, and the current one the newest datagram once it has been sent |
| Completion.CanFinishExactly | L2_3/file_server.c:114-127 | from every reachable state with everything under way lost, a client can still end acknowledged if and only if it has ended so, or has an attempt left, its chunk would be answered, and it has a slot, finds one free or some holder can finish |
| Completion.AnsweredUntilPrinted | L2_3/file_server.c:117-127 | a client's chunk would be answered until its last chunk is printed; afterwards, in order, only for a one-chunk file |
| Completion.SlotIsReleasedAfterLossExactly | L2_3/file_server.c:120-122 | with everything under way lost a slot can be given back if and only if its client has an attempt left and would be answered |
| Completion.AcknowledgementCanBeLost | L2_3/file_server.c:117-127 | for every file of at least one full chunk a reachable state in which all of it is printed, the client will try again and there is room, but with the echo lost no continuation has the client end acknowledged |
| Completion.SlotIsReleasedExactly | L2_3/file_server.c:117-127 | with datagrams merely late a slot can still be given back if and only if its client has not stopped short of sending its last chunk and, in order, that chunk has not been printed |
| Completion.SlotCanBeLost | L2_3/file_server.c:92-126 | a run for each way a slot is lost for ever, the last two in order, for any client not begun yet and from any reachable state with room |
| Completion.TableOpensExactly | L2_3/file_server.c:81-99 | some continuation has a free slot if and only if not all slots are held for good |
| Completion.HeldTableBlocksTheServer | L2_3/file_server.c:92-98 | with all slots held for good, no continuation prints anything for a client without a slot |
| Completion.TableCanFillUp | L2_3/file_server.c:92-126 | with as many clients as slots, each with a full chunk, a reachable state has all slots held for good, in each of the three ways |
| FileClient.InputFile.Read | L2_3/file_client_udp.c:66-69 | read returns between 1 and the asked number of the remaining bytes, 0 at the end of the file, or fails |
| FileClient.BulkRead | L2_3/file_client_udp.c:61-76 | for every pattern of short reads the next count bytes or all that are left, and the rest of the buffer untouched |
| FileClient.LaneClientFollowsEvents | L2_3/file_client_udp.c:118-125 | the client within a lane moves exactly as the client machine moves on what it sends and hears |
| FileClient.EventsAreLaneSteps | L2_3/file_client_udp.c:83-125 | and whatever the client machine may do on what it sends and hears is a step of the lane, sending just that packet or hearing just that echo |
| FileClient.SendAndConfirm | L2_3/file_client_udp.c:83-98 | one send, then one echo or a time-out that leaves the echo buffer as it was |
| FileClient.SendUntilEchoed | L2_3/file_client_udp.c:118-125 | the retry loop ends with the chunk echoed or the attempts used up, following the client machine |
| FileClient.NextPacket | L2_3/file_client_udp.c:110-117 | the buffer filled in place is the next packet of the file, and a short chunk is exactly the last one |
| FileClient.DoClient | L2_3/file_client_udp.c:100-127 | the whole client follows the client machine on its file's packets to its end, or to a failed read |
| BlockGeometry.BlocksFit | Lab4/archunix5a.c:204 | the blocks are pairwise disjoint and end before the file's last byte, for the size BlockSizeIsUnique determines |
| BlockGeometry.BlockSizeIsUnique | Lab4/archunix5a.c:204 | the block size is the one number s for which n blocks of s bytes leave over a byte of the file and n blocks of s + 1 bytes do not; 0 for an empty file |
| BlockGeometry.GetIndexes | Lab4/archunix5a.c:131-137 | the index pair of two draws |
| BlockGeometry.IndexesByDraw | Lab4/archunix5a.c:131-137 | the first draw is the first number, the second counts through the other numbers in order, and larger draws start again |
| BlockGeometry.IndexDrawIsBijection | Lab4/archunix5a.c:131-137 | draws correspond one to one to ordered pairs of distinct block numbers |
| BlockPipeline.ShiftIsRemainder | Lab4/archunix5a.c:15 | the rotation is addition modulo three |
| BlockPipeline.DrawnFits | Lab4/archunix5a.c:167-185 | every drawn block lies inside the file |
| BlockPipeline.ConcurrentBlocksDisjoint | Lab4/archunix5a.c:170-174 | the block written and the block read at the same time never overlap |
| BlockPipeline.DrawnIsCarriedOut | Lab4/archunix5a.c:169-181 | the offsets of the loop's turns are those of the drawn schedule, writes one turn behind and reads one ahead |
| BlockPipeline.ReversalSteps | Lab4/archunix5a.c:151-160 | after half the length the swaps have reversed the block, one swap leading from each stage to the next |
| BlockPipeline.Pipeline.constructor | Lab4/archunix5a.c:207-210 | three zeroed buffers and nothing under way |
| BlockPipeline.Pipeline.TransferRead | Lab4/archunix5a.c:108-109 | a byte of an outstanding read arrives in its buffer at any time and disturbs no other buffer |
| BlockPipeline.Pipeline.TransferWrite | Lab4/archunix5a.c:117-118 | a byte of an outstanding write reaches the file at any time |
| BlockPipeline.Pipeline.Interrupt | Lab4/archunix5a.c:49-52 | the interrupt clears the work flag and nothing else |
| BlockPipeline.Pipeline.Suspend | Lab4/archunix5a.c:71-88 | returns with the operation complete, or interrupted |
| BlockPipeline.Pipeline.ReadData | Lab4/archunix5a.c:103-110 | starts a read only on an idle control block whose block no write under way touches; does nothing once interrupted |
| BlockPipeline.Pipeline.WriteData | Lab4/archunix5a.c:112-119 | hands the buffer's whole content to a write, on an idle control block and with no other write under way; does nothing once interrupted |
| BlockPipeline.Pipeline.SyncData | Lab4/archunix5a.c:121-129 | waits for the write, then has the file flushed and waits for that, unless interrupted |
| BlockPipeline.Pipeline.Flush | Lab4/archunix5a.c:126-128 | the flush occupies its control block until done and moves no data |
| BlockPipeline.Pipeline.ReverseBuffer | Lab4/archunix5a.c:151-160 | an uninterrupted call reverses its own buffer, while other transfers go on |
| BlockPipeline.Pipeline.Iteration | Lab4/archunix5a.c:170-180 | one turn: the previous reversal is written, the next block read and the one between reversed, and all come to rest |
| BlockPipeline.Pipeline.Rotate | Lab4/archunix5a.c:169-181 | the loop, complete or interrupted, keeps the writes issued a prefix of the schedule's |
| BlockPipeline.Pipeline.FirstRead | Lab4/archunix5a.c:166-168 | the first block is in buffer 1 before the loop begins |
| BlockPipeline.Pipeline.LastReversal | Lab4/archunix5a.c:182-185 | the last reversed block is written and waited for |
| BlockPipeline.Pipeline.ProcessBlocks | Lab4/archunix5a.c:162-186 | uninterrupted, max(1, k-1) writes, the r-th the reverse of the r-th read, and the file as the schedule says; interrupted anywhere, the writes issued are a prefix of those, each a complete reversal of a completely read block, and each byte of the file is as before or as after the last of them |
| BlockPipeline.ReverseBlocks | Lab4/archunix5a.c:188-218 | the whole program: a complete run's result, which EachReversal determines byte by byte; after an interrupt every byte is that of the file before or after the last write begun; the file is left alone for fewer than two blocks, no iterations or empty blocks; its last byte always stays |
| BlockPipeline.LastByteIsNeverWritten | Lab4/archunix5a.c:204 | no write of any run, complete or interrupted, reaches the file's last byte |
| BlockPipeline.LastByteStays | Lab4/archunix5a.c:204 | so after any number of writes it is the original one |
| BlockResults.EachReversal | Lab4/archunix5a.c:162-186 | reversal m of a run fills its target block with its source block backwards, as that was before the write just before, and changes no other byte; both blocks are given by the random numbers and the size by the file's length alone |
| BlockResults.ReversalsFromStartToEnd | Lab4/archunix5a.c:162-186 | a complete run is k - 1 of these from the original file, or one for k = 1 |
| BlockResults.SingleReversal | Lab4/archunix5a.c:162-186 | with k = 1 the block at the second random number becomes the one at the first backwards, and nothing else changes |
| BlockResults.SingleReversalExamples | Lab4/archunix5a.c:204 | eleven bytes in two blocks of five, reversed in place and onto the other block |
| BlockResults.NothingToReverse | Lab4/archunix5a.c:199-206 | with fewer than two blocks, no iteration or a file of at most n bytes nothing changes |
| BlockEquivalence.PipelineIsPlainWithoutHazard | Lab4/archunix5a.c:162-186 | without a read of the block about to be written the result is that of the plain program |
| BlockEquivalence.HazardExample | Lab4/archunix5a.c:169-184 | a file of three bytes, two blocks, three iterations and random numbers for which the program's result is not the plain program's |
| BlockEquivalence.PipelineFollowsTags | Lab4/archunix5a.c:162-186 | the final content of each block is an original block, possibly reversed, determined by the draws |
| BlockEquivalence.PlainFollowsTags | Lab4/archunix5a.c:162-186 | the same for the plain program |
| BlockEquivalence.PipelineIsPlainExactly | Lab4/archunix5a.c:162-186 | for given block numbers the results agree on every file if and only if those origins agree block by block |
| BlockEquivalence.ProgramIsPlainExactly | Lab4/archunix5a.c:188-218 | for given arguments and random numbers a complete run of the program gives the plain program's result on every file of a length if and only if it does nothing or the drawn block numbers make the origins agree |
| BlockEquivalence.ProgramIsPlainWithoutHazard | Lab4/archunix5a.c:188-218 | it does when no block is read just after having been drawn as a target |
| BlockEquivalence.MovesAreTheSchedule | Lab4/archunix5a.c:167-184 | the drawn block numbers give the drawn schedule |
| Mailbox.ReachableInv | L2_4_Graded/server.c:78-215 | in every reachable state the mutex, barrier, identifier, mailbox and wakeup invariants hold |
| Mailbox.MailboxIsNeverOverwritten | L2_4_Graded/server.c:86-97 | main posts only into an empty mailbox, and what a worker takes is the identifier posted |
| Mailbox.IdsAreABijection | L2_4_Graded/server.c:201-212 | once the second barrier opens, not before, each of 1 to n is held by exactly one of the n workers |
| Mailbox.NobodySleepsThroughAHandOff | L2_4_Graded/server.c:87-95 | no worker sleeps with the mailbox full nor main with it empty, except just before the broadcast that wakes them |
| Mailbox.SomeoneCanMove | L2_4_Graded/server.c:82-98 | until all are done some thread can take a step that is not a spurious wakeup |
| Mailbox.CallDecreasesMeasure | L2_4_Graded/server.c:150-164 | every such step lowers a measure |
| Mailbox.SpuriousWakeupCosts | L2_4_Graded/server.c:87-90 | a spurious wakeup raises it by two at most |
| Mailbox.RunsEnd | L2_4_Graded/server.c:208-212 | so a run has boundedly many steps per spurious wakeup |
| RingCodec.AtoiOfDecimal | Lab2_1/test2.c:65-71 | what is printed with %d is parsed back, whatever non-digit follows |
| RingCodec.DecimalFits | Lab2_1/test2.c:71-73 | the text of an int has at most 11 characters, so its length fits the length byte |
| RingCodec.FramingRoundTrip | Lab2_1/test2.c:51-83 | any sequence of ints written as messages is read back as that sequence, nothing left over |
| RingCodec.WritingAppends | Lab2_1/test2.c:69-83 | writing a message to a pipe of messages gives the pipe of one more message |
| RingCodec.ReadingTakesFirst | Lab2_1/test2.c:51-67 | reading takes exactly the first message off, and its length byte is at most 11 |
| RingCodec.ReadFromPipe | Lab2_1/test2.c:51-67 | 1 at the end of file with the value left alone, else the first message's value and the remaining bytes |
| RingCodec.WriteToPipe | Lab2_1/test2.c:69-83 | appends exactly one message, or returns 1 when nobody can read |
| RingCodec.StrLen | Lab2_1/test2.c:72 | the number of characters before the first NUL |
| RingCodec.PrintMessage | Lab2_1/test2.c:70-72 | the buffer holds the decimal text from its second byte |
| RingCodec.Vary | Lab2_1/test2.c:85-92 | the varied value stays within the safety bound |
| RingCodec.VaryExactly | Lab2_1/test2.c:85-92 | the values it can take are exactly those in the interval around the old one and within the bound, and 1 if the interval reaches beyond the bound |
| RingCodec.VaryCountsUp | Lab2_1/test2.c:85-92 | random number 0 adds the lower bound, each further one adds one more up to the upper bound and then they start again; beyond a million either way the value is 1 |
| RingCodec.FrameExamples | Lab2_1/test2.c:69-83 | the bytes of the messages -5, 0 and 120 |
| RingCodec.AtoiExamples | Lab2_1/test2.c:65 | parsing skips white space and takes one sign and the digits up to the first other byte |
| RingCodec.UnframeExamples | Lab2_1/test2.c:51-67 | a read takes the announced bytes, or what is left |
| TokenRing.ReachableInv | Lab2_1/test2.c:98-158 | in every reachable state each process holds the descriptors its position in the program says, and the message count is right |
| TokenRing.PipesAreConnected | Lab2_1/test2.c:104-132 | until a 0 is received every pipe has a reader and a writer |
| TokenRing.SingleToken | Lab2_1/test2.c:134-153 | messages in pipes and hands are exactly one until a 0 is received, none before the first write and none afterwards; values stay bounded; which values they are say ValuesGoRound and HandOver |
| TokenRing.ValuesGoRound | Lab2_1/test2.c:134-153 | along every run the processes receive in turn, process 0 first and the value 1; each later value is at most 10 away from the one received before it, or 1 again where that can leave the bounds of a million; nothing is received after a 0 |
| TokenRing.HandOver | Lab2_1/test2.c:134-153 | a process that writes puts just the value it holds into its successor's pipe, and the next reception there takes that value out |
| TokenRing.EveryValueCanFollow | Lab2_1/test2.c:85-92 | after a reception every value that ValuesGoRound allows can be the next one sent |
| TokenRing.EndsOfEachProcess | Lab2_1/test2.c:104-132 | child i keeps descriptors 2i and 2i+3, the primary 2n-2 and 1; a process that leaves closes the read end first |
| TokenRing.MessagesFitTheirFrames | Lab2_1/test2.c:51-83 | so the messages in each pipe survive their encoding |
| TokenRing.NobodyLeavesEarly | Lab2_1/test2.c:136-152 | nobody exits and nobody sees an end of file before a 0 is received, and a write always has a reader, so the broken-pipe branch is unreachable |
| TokenRing.ShutdownGoesOn | Lab2_1/test2.c:136-157 | after a 0 some live process always has a step, and when all others only read it is an end of file |
| TokenRing.ShutdownEnds | Lab2_1/test2.c:136-157 | every step after a 0 lowers a measure, so all processes exit |
| TokenRing.MessageGoesOn | Lab2_1/test2.c:134-153 | before a 0 the ring never stops |
| TokenRing.EveryRunCanBeShutDown | Lab2_1/test2.c:94-170 | from every reachable state, for any number of corners, some run goes on to a received 0 and the exit of all processes |
| Balls.ThrowBall | Lab3/prog18.c:144-151 | the bin is the number of heads, hence an existing bin |
| Balls.HeadsCountsHeads | Lab3/prog18.c:147-149 | no heads count 0, all heads count their number, and turning any one tail into a head adds one |
| Balls.ReachableInv | Lab3/prog18.c:62-141 | in every interleaving each mutex is held by exactly the thread inside its section, so the separate read and write lose nothing |
| Balls.BallsAreConserved | Lab3/prog18.c:120-141 | waiting, in flight and thrown add up to all balls; the bins add up to those thrown and those binned but not yet counted; what main reports is all balls; bin by bin see BinsHoldWhatWasDrawn |
| Balls.BinsHoldWhatWasDrawn | Lab3/prog18.c:132-135 | in every interleaving each bin and the throwers on their way to it make up exactly the balls drawn for that bin along the run; once all balls are counted the bin alone does |
| Balls.BinsAreQuiet | Lab3/prog18.c:62-72 | once all balls are counted the bins add up to them and no continuation of the run writes a bin |
| Balls.MainSumsQuietBins | Lab3/prog18.c:70-73 | main reads the bins without locks only then, with no ball in flight |
| Balls.SomeThrowerCanMove | Lab3/prog18.c:123-139 | until then some thrower can take a step unless main is just holding the counter |
| Balls.ThrowersEnd | Lab3/prog18.c:123-139 | the throwers take at most fourteen steps per ball and three more each |
| Balls.EveryRunCanReport | Lab3/prog18.c:62-73 | with a thrower and a bin, from every reachable state some run goes on until main reports all the balls |
| Students.ReachableInv | Lab3/prog20.c:96-124 | in every interleaving with cancellations each year's mutex is held by exactly the student inside its section |
| Students.CountersCountStudents | Lab3/prog20.c:96-124 | each year's counter is the number of students between their increment and their decrement; present counts the students not removed; through which years a student goes says YearsInOrder |
| Students.YearsInOrder | Lab3/prog20.c:96-124 | along every run a student increments the years 0, 1, ... in order up to its current one and decrements them in the same order, all but a year still held; an engineer has incremented 0 to 3 and decremented 0 to 2 once each, a cancelled student has given back exactly the years it began |
| Students.CountersAfterAllJoins | Lab3/prog20.c:72-78 | after all joins three counters are 0 and the fourth is all students less the cancellations that took effect, between present and all |
| Students.KickedInTimeNeverGraduates | Lab3/prog20.c:101-107 | a student kicked before entering the last sleep can only end cancelled |
| Students.KickedAsleepNeverGraduates | Lab3/prog20.c:102-105 | a kick that interrupts a sleep, the last one too, leads to nothing but cancellation |
| Students.UnkickedGraduates | Lab3/prog20.c:96-109 | a student never kicked can only end as an engineer |
| Students.SomeStudentCanMove | Lab3/prog20.c:111-124 | the year mutexes never deadlock |
| Students.StudentsEnd | Lab3/prog20.c:96-109 | students take boundedly many steps, so the joins end |
| Students.EveryRunCanJoinAll | Lab3/prog20.c:62-74 | from every reachable state some run goes on until main has joined all students |
| Students.StudentsList.constructor | Lab3/prog20.c:48-55 | nobody removed, all present |
| Students.StudentsList.KickStudent | Lab3/prog20.c:143-154 | kicks the first drawn student not yet removed, does nothing when nobody is present, and keeps present the number of students not removed |
| Students.PresentMeansUnremoved | Lab3/prog20.c:146-150 | present is 0 exactly when all are removed, so drawing can succeed whenever it starts |
| Admission.WireIsDeny | L2_4/POSIX_sem_client.c:67-79 | only an argument with its low 16 bits all ones is sent as the number of a denial |
| Admission.WireExamples | L2_4/POSIX_sem_client.c:67-79 | the two bytes of the low 16 bits change places; a denial is 0xFFFF |
| Admission.PermitsAndRequestsAreConserved | L2_4/POSIX_sem_server.c:104-134 | permits and requests in service add up to the initial permits; requests received are those denied, in service, finished and under examination |
| Admission.DeniedExactlyWhenFull | L2_4/POSIX_sem_server.c:111-123 | a request is denied exactly when all permits are out and takes one otherwise |
| Admission.AnsweredAtMostOnce | L2_4/POSIX_sem_server.c:75-90 | no request is answered twice |
| Admission.VerdictExplained | L2_4/POSIX_sem_client.c:84-96 | without a timeout the client says denied exactly when its request was denied or was itself the number of a denial |
| Admission.ReportMatchesAlarmAndNumber | L2_4/POSIX_sem_client.c:83-96 | the client reports a timeout exactly if its alarm has gone off, and when served it holds its own number |
| Admission.TruthfulExactly | L2_4/POSIX_sem_client.c:91-96 | the verdict is truthful in all runs if and only if the request is not that number |
| Admission.Server.HandleRequest | L2_4/POSIX_sem_server.c:105-133 | one turn of the receive loop is receive, trywait and denial or start |
| Admission.Server.CommunicateDgram | L2_4/POSIX_sem_server.c:75-90 | a worker answers with the received number and gives its permit back |
| Admission.Server.DoServer | L2_4/POSIX_sem_server.c:104-134 | the receive loop with workers finishing meanwhile follows the machine |
| Admission.AwaitReply | L2_4/POSIX_sem_client.c:83-96 | the first recv not broken off by another signal decides between timeout, denial and service |
| FifoDemux.PidRoundTrip | Lab2_1/prog21b_s.c:28 | the identifier at the head of a packet is the writer's |
| FifoDemux.EveryPassOverruns | Lab2_1/prog21_c.c:23-37 | whatever a read returns, the read and the zero fill store every byte of the packet after the identifier, up to three bytes beyond the buffer |
| FifoDemux.WriteToFifo | Lab2_1/prog21_c.c:21-46 | with a buffer of the packet's length, its reuse yields full packets and a padded last one, and none for an empty remainder |
| FifoDemux.PacketBytes | Lab2_1/prog21_c.c:26-40 | byte i of a packet: the identifier from its lowest byte up, then the chunk, then zeros |
| FifoDemux.PacketsBytes | Lab2_1/prog21_c.c:28-45 | behind the identifier the k-th packet has the k-th stretch of the file and zeros beyond its end; there are as many packets as stretches that are not empty |
| FifoDemux.PrintAlnum | Lab2_1/prog21b_s.c:29-31 | prints the letters and digits of the whole buffer |
| FifoDemux.AlnumOfByte | Lab2_1/prog21b_s.c:30 | a byte is shown exactly if its character is a letter or a digit |
| FifoDemux.BufferAfterRead | Lab2_1/prog21b_s.c:24-25 | a short read leaves the rest of the buffer as it was; any other fills it |
| FifoDemux.ReadFromFifo | Lab2_1/prog21b_s.c:20-34 | for any bytes in the FIFO, after each read the letters and digits of the whole buffer are shown, stale ones of a short read included |
| FifoDemux.WholePacketsAreRead | Lab2_1/prog21b_s.c:24-33 | on whole packets no read is short: the buffers shown are the packets, whatever the buffer held at first |
| FifoDemux.PacketsKeepText | Lab2_1/prog21_c.c:28-45 | cutting and padding add and lose no letter or digit, at every file length |
| FifoDemux.DemultiplexedSoFar | Lab2_1/prog21b_s.c:20-34 | at any moment of any merge what is shown under a writer's identifier and what it has yet to send make up its file's letters and digits |
| FifoDemux.Demultiplexed | Lab2_1/prog21b_s.c:20-34 | what the reader shows of the bytes in the FIFO under a finished writer's identifier is that file's text, complete and in order |
| FifoDemux.NothingInvented | Lab2_1/prog21b_s.c:26-31 | nothing is shown under an identifier no writer has |
| LazyDeletion.MarkingRemoves | Lab3/prog19.c:102 | marking a live cell removes the element with that many live cells before it from the list |
| LazyDeletion.InterruptRemovesOne | Lab3/prog19.c:124-128 | of a list that is not empty exactly the element at the random number modulo the count goes, and the others keep their order |
| LazyDeletion.LinesExample | Lab3/prog19.c:66-68 | two prints of five elements with two signals between them |
| LazyDeletion.ViewsAreSelections | Lab3/prog19.c:124-128 | after any signals the list is an increasing selection of 1 to n, shorter by one per signal until it is empty |
| LazyDeletion.LinesAreSelections | Lab3/prog19.c:66-68 | every printed line is such a selection |
| LazyDeletion.LinesOnlyShrink | Lab3/prog19.c:66-68 | every printed line is a subsequence of every line before it |
| LazyDeletion.Numbers.constructor | Lab3/prog19.c:39-43 | the list starts as 1 to n |
| LazyDeletion.Numbers.RemoveItem | Lab3/prog19.c:93-104 | the search stays inside the array and ends, and the index-th element leaves the list |
| LazyDeletion.Numbers.PrintArray | Lab3/prog19.c:106-113 | prints the list |
| LazyDeletion.Numbers.HandleInterrupt | Lab3/prog19.c:124-129 | removes the element drawn modulo the count, and does nothing when none is left |
| LazyDeletion.SignalHandling | Lab3/prog19.c:115-141 | a whole run until SIGQUIT prints the lists the signals have left |

## Left out

- File transfer: header fields are integers below 2^31 - 1 in place of their network byte order; addresses are compared as values, not through their padding; payloads are logged as bytes, not printed with `%s`.
- File transfer: the EPIPE branch of the server (a datagram socket does not raise it), forged datagrams, and an alarm that goes off just before recv blocks.
- Completion.CanFinishExactly: says what some continuation can do once everything under way is lost, not what every one does, as the client may give up after any further losses.
- FileTransfer.AtMostOnceExactly: assumes at least two attempts per chunk and at least one slot, as the program has.
- FileClient.DoClient: a failed read ends the client there, where the program exits with a message.
- BlockPipeline.Pipeline.SyncData: when the first of its two waits is interrupted the program still asks for the flush, on a control block that may be in use; the model stops there, as it does before aio_cancel and freeing the buffers. Exclusive use of a control block is claimed for uninterrupted runs.
- Mailbox: accepting connections, the message sent to a champion at the end, and the process exiting while workers still run after the second barrier.
- RingCodec.ReadFromPipe: takes a length byte below the buffer's size, which every written message has; reads of a pipe return all that is asked for if it is there, as writes of so few bytes are atomic.
- RingCodec.WriteToPipe: is for messages that fit an int, as its parameter does.
- Mailbox, TokenRing, Balls, Students and Admission: threads and processes are positions in their program and every system call or shared access is one step, so that all interleavings are covered; they are not methods, except where a loop runs alone.
- TokenRing: zombies and wait, and standard output.
- Balls: sleeping between main's looks, the mean value in floating point, and process exit while throwers run.
- Students: the clock, and thread creation failing; a kick is one step although it cancels and marks in turn, as only main sees the marks.
- Students.StudentsList.KickStudent: random numbers are a given list, and the outcome says when it is used up.
- Admission: the sleep's length, and the semaphore's lifetime after the server loop returns.
- FifoDemux.WriteToFifo: gives the buffer the packet's length, so it does not model what the stores beyond the declared buffer overwrite.
- FifoDemux: regular files are read without short reads before their end; the reader reads to the end of what the writers wrote, not to a moment when all of them happened to have closed.
- LazyDeletion: the quit flag's mutex and main's sleep; each signal and each print is one event, as the array's mutex makes them.
- L2_4/POSIX_cond_server.c, whose ready flag is raised outside its mutex, and the programs for bingo, pastry, calculators, editors, signals and pi, which have no protocol of this kind.

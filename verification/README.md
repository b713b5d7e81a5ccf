# Buffers, reactor and chat protocol: a Dafny model

The project models two layers of the chat server. Below is the buffer code in `asio/`: the byte iterator over a
scattered buffer list, the scatter/gather copy, the two growable buffers and the stream buffer. Above is the server
itself: the epoll loop and its ten workers, the filter in front of the user table, the messages between client and
server, and the maps that route a chat.

| file | models |
|---|---|
| `Chunks.dfy` | a list of chunks and its concatenation |
| `BuffersIterator.dfy` | `asio/buffers_iterator.hpp`, a class whose three redundant positions move together |
| `Memory.dfy`, `BufferCopy.dfy` | buffers as windows into one addressed array; the six `buffer_copy` overloads, loop for loop |
| `DynamicBuffers.dfy` | `dynamic_string_buffer` and `dynamic_vector_buffer` over a store held by reference |
| `StreamBuffer.dfy` | `basic_streambuf`, four positions over one array that is moved down and replaced |
| `Reactor.dfy` | `serverV2.cpp` and the worker loop, as atomic steps of eleven threads in any interleaving |
| `Bits.dfy`, `BloomFilter.dfy` | the hash, the bitmap and the filtered login |
| `Text.dfy`, `WireProtocol.dfy` | printing in the client, parsing in the server |
| `Routing.dfy` | `name_sock_map`, `from_to_map`, `group_map` and what is sent to whom |

Results where the code does less than its comments, or a reader, would expect. Each comes with the exact condition.

- `prepare` of the stream buffer moves bytes before it finds that it must throw. The input sequence survives the
  exception exactly when it repeats with the period by which it was moved (`ThrowPreservesIff`).
- `commit` narrows a count to `int` and `consume` adds the count to an address, so both keep their documented promise
  only under the bounds in `CommitIsExactIff` and `ConsumeIsExactIff`. Committing two gibibytes at once puts `pptr` in
  front of the array (`CommitGoesAstray`); `consume` of the largest `size_t` moves the position back by one
  (`ConsumeGoesAstray`).
- Before the first `prepare`, `consume` on a vector empties at most `max_size()` bytes although the documentation
  says the vector is emptied; on a string it does what is documented. They agree as `ConsumeAgreesIff` says.
- Each connection that a worker finds closed ends that worker's thread. Requests in the queue can still be served if
  and only if fewer than ten connections have been closed so (`ServedIffWorkerLeft`); ten clients that connect,
  ask and close are enough to end the service (`PoolCanDie`).
- The hash is safe exactly for names in which no byte beyond ASCII follows a prefix whose base-131 number is a
  multiple of ten million (`SafeIffHashable`). The empty prefix is one: a name in Chinese is never safe.
- A name that registers after start-up sets no bit, so the filter may refuse it (`FilterAgreesIff`).
- Parsing throws on exactly the messages that `ThrowsIff` names, and nothing catches the exception.
- A printed message is read back as meant exactly when its fields avoid certain tags (the `RoundTrip` lemmas).
- When a descriptor is reused, a line can go out under its former user's name, as the map happens to be iterated
  (`ReuseIsAmbiguous`). The sender is certain exactly when one user's latest login came over the connection
  (`OwnerIsCertainIff`).
- A chat line from a user who never chose a target is sent to descriptor 0, unless someone has logged in under the
  empty name (`SaidIsDelivered`).
- Closing a connection changes no map. A closed connection still hears its group (`ClosedStillHears`), and whoever gets
  its descriptor next is sent the private lines meant for its former user (`StrangerGetsTheLine`). A group line goes to
  current members alone exactly when every other connection closed after joining has joined again
  (`GroupLineStaysCurrentIff`); a private line reaches its target's own connection exactly when that has not been closed
  since the latest login (`ReachesTargetIff`).

Sizes and positions are unbounded naturals except where the code's width matters: `SIZE_MAX` as the mode sentinel, the
cast to `int`, the address sum in `consume`, the `int` of the hash and the 32-bit words of the bitmap are explicit.
Each store of a dynamic buffer has a largest size of its own, which `std::string` and `std::vector` need not share.

## Model

| member | source | states |
|---|---|---|
| BuffersIterators.BuffersIterator.Begin | asio/buffers_iterator.hpp:168-185 | leading empty buffers are skipped: the iterator is canonical at offset 0 |
| BuffersIterators.BuffersIterator.End | asio/buffers_iterator.hpp:188-204 | the end iterator is canonical and its offset is the total size |
| BuffersIterators.BuffersIterator.Dereference | asio/buffers_iterator.hpp:342-346 | the byte read is the byte of the concatenation at the global offset |
| BuffersIterators.BuffersIterator.Increment | asio/buffers_iterator.hpp:355-375 | one byte forward, over any number of empty buffers, to a canonical place |
| BuffersIterators.BuffersIterator.Decrement | asio/buffers_iterator.hpp:378-405 | one byte back, over any number of empty buffers, to a canonical place |
| BuffersIterators.BuffersIterator.Advance | asio/buffers_iterator.hpp:408-486 | for every move that stays in range, forward or backward, the offset changes by exactly n and the place is canonical |
| BuffersIterators.BuffersIterator.AdvanceForward | asio/buffers_iterator.hpp:410-442 | the forward loop skips empty buffers and reaches the end with nothing left to go |
| BuffersIterators.BuffersIterator.AdvanceBackward | asio/buffers_iterator.hpp:443-485 | the backward search terminates and always finds a non-empty buffer; its "reached the beginning" branch is dead |
| BuffersIterators.PlaceIsUnique | asio/buffers_iterator.hpp:349-352 | two canonical places with the same global offset are the same place |
| BuffersIterators.EqualMeansSamePlace | asio/buffers_iterator.hpp:305-314 | comparing only the offsets is sound and complete for equality of places |
| BuffersIterators.ElementAt | asio/buffers_iterator.hpp:219-224 | `it[n]` is the byte n places on, in either direction |
| BuffersIterators.AdvanceInSteps | asio/buffers_iterator.hpp:257-295 | moving by m and then by n reaches the place that m + n reaches; a move by -m undoes one by m |
| BuffersIterators.AdvanceByDistance | asio/buffers_iterator.hpp:489-492 | advancing by the distance to another iterator reaches its place |
| BuffersIterators.IncrementThenDecrement | asio/buffers_iterator.hpp:227-246 | `++` and `--` undo each other in both orders |
| BuffersIterators.CopyRange | asio/buffers_iterator.hpp:502-516 | the range from begin to end yields exactly the concatenation |
| BufferCopying.CutBuffer | asio/buffer.hpp:649-660 | `buffer(b, n)` and `b + n` divide b between them, for every n: the bytes of a sequence do not depend on where its buffers are cut |
| BufferCopying.BufferSize | asio/buffer.hpp:551-571 | the number of bytes a buffer sequence stands for |
| BufferCopying.BufferCopy1 | asio/buffer.hpp:2172-2182 | one buffer to one buffer: the smaller size, and the whole memory afterwards |
| BufferCopying.OneToOne | asio/buffer.hpp:2184-2190 | count and whole memory of the flat copy |
| BufferCopying.OneToOneUpTo | asio/buffer.hpp:2192-2200 | the same with a limit |
| BufferCopying.OneToMany | asio/buffer.hpp:2202-2223 | the same from many source buffers, some of them empty |
| BufferCopying.ManyToOne | asio/buffer.hpp:2225-2246 | the same into many target buffers |
| BufferCopying.ManyToMany | asio/buffer.hpp:2248-2290 | the same with two cursors over differently chunked lists; terminates |
| BufferCopying.ManyToManyUpTo | asio/buffer.hpp:2292-2338 | the same with a limit; terminates with empty buffers on both sides |
| BufferCopying.BufferCopy | asio/buffer.hpp:2361-2372 | whichever overload is chosen, count and memory are those of one flat copy |
| BufferCopying.BufferCopyUpTo | asio/buffer.hpp:2398-2410 | the same for the form with a limit |
| BufferCopying.CopyMeaning | asio/buffer.hpp:2153-2166 | after a copy of n bytes the target reads as n source bytes and its old tail, the source is unchanged, and no other address is written |
| BufferCopying.ChunkingIsIrrelevant | asio/buffer.hpp:2385-2393 | two pairs of lists that stand for the same addresses give the same count and memory, however differently chunked, and so does any limit at or above the smaller size |
| BufferCopying.CutsAreIrrelevant | asio/buffer.hpp:649-660 | cutting a buffer of either side in two leaves the lists copyable and changes neither count nor memory |
| Memory.CopyMore | asio/buffer.hpp:2261-2287 | a flat copy can be done in two stretches, the step of every copy loop, whatever windows the second stretch is given by |
| DynamicBuffers.DynamicStringBuffer.Prepare | asio/buffer.hpp:1713-1727 | refuses without a change when size() + n exceeds the limit; otherwise enters version 1 and resizes behind the input, as `PrepareOf` says (see `PrepareMakesRoom`) |
| DynamicBuffers.DynamicStringBuffer.Commit | asio/buffer.hpp:1742-1746 | adopts output into the input and cuts the store there, as `CommitOf` says (see `CommitAdopts`) |
| DynamicBuffers.DynamicStringBuffer.Grow | asio/buffer.hpp:1756-1765 | throws, without a change, exactly when size() + n exceeds the limit; otherwise keeps the input bytes, and makes n bytes of room: zero bytes behind all others outside version 1 mode, the whole output within it (see `GrowKeepsAndAdds`) |
| DynamicBuffers.DynamicStringBuffer.Shrink | asio/buffer.hpp:1774-1777 | leaves all but the last min(n, size) bytes of the input (see `ShrinkDropsBack` and, for version 1 mode, `ShrinkCutsInput`) |
| DynamicBuffers.DynamicStringBuffer.Consume | asio/buffer.hpp:1791-1803 | the string's clamped erasure in both modes (see `ConsumeDropsFront`) |
| DynamicBuffers.DynamicVectorBuffer.Prepare | asio/buffer.hpp:1986-2000 | the same refusal and the same new state as the string's |
| DynamicBuffers.DynamicVectorBuffer.Commit | asio/buffer.hpp:2015-2019 | the same new state as the string's |
| DynamicBuffers.DynamicVectorBuffer.Grow | asio/buffer.hpp:2029-2038 | the same refusal, the same bytes kept and the same room |
| DynamicBuffers.DynamicVectorBuffer.Shrink | asio/buffer.hpp:2047-2050 | the same bytes left |
| DynamicBuffers.DynamicVectorBuffer.Consume | asio/buffer.hpp:2064-2076 | never erases beyond the end; the new state differs from the string's only as `ConsumeAgreesIff` says |
| DynamicBuffers.PrepareMakesRoom | asio/buffer.hpp:1697-1712 | throws exactly when size() + n exceeds the limit, keeps the input bytes, makes n bytes of output out of the old ones and zeros, switches version 1 on |
| DynamicBuffers.CommitAdopts | asio/buffer.hpp:1729-1741 | min(n, output) bytes are adopted, in order, and the rest of the output discarded |
| DynamicBuffers.WriteAppends | asio/buffer.hpp:1697-1746 | from every sound state with room, prepare, write and commit append exactly what was written, on either backing |
| DynamicBuffers.ConsumeDropsFront | asio/buffer.hpp:1779-1790 | exactly min(n, input) bytes leave at the front |
| DynamicBuffers.GrowKeepsAndAdds | asio/buffer.hpp:1748-1765 | exactly when `grow` throws; outside version 1 mode it keeps every byte and adds n bytes that are zero, within it it keeps the input and makes n bytes of output |
| DynamicBuffers.ShrinkDropsBack | asio/buffer.hpp:1767-1777 | outside version 1 mode `shrink` removes min(n, size) bytes at the back and changes nothing else |
| DynamicBuffers.ShrinkCutsInput | asio/buffer.hpp:1774-1777 | within version 1 mode `shrink` removes the output and min(n, input) bytes of the input, while size() names the old number |
| DynamicBuffers.QueueStep | asio/buffer.hpp:1713-1803 | one queue operation keeps the invariant and neither loses, repeats nor reorders a byte |
| DynamicBuffers.QueueRun | asio/buffer.hpp:1696-1803 | over every run of queue operations: removed bytes followed by input equal initial bytes followed by committed ones; the limit holds; version 1 is never left |
| DynamicBuffers.V2Run | asio/buffer.hpp:1748-1803 | over every run of the version 2 operations the buffer is a plain bounded byte sequence: growing at the back, shrinking there, consuming at the front, and throwing exactly when that is full |
| DynamicBuffers.BackingIsIrrelevant | asio/buffer.hpp:1986-2076 | over every allowed run of both versions' operations, string and vector end in the same state and throw at the same points, when the same limit binds both |
| DynamicBuffers.LimitsMatterIff | asio/buffer.hpp:1713-1765 | two stores with largest sizes of their own refuse the same requests if and only if the smaller of each and the buffer's limit are equal |
| DynamicBuffers.ConsumeAgreesIff | asio/buffer.hpp:2054-2063 | outside that hypothesis, exactly when the two agree |
| DynamicBuffers.ConsumeDiffers | asio/buffer.hpp:2075 | a string and a vector buffer, built over equal bytes with one limit, hold different bytes after the same `consume` |
| DynamicBuffers.ShrinkKeepsV1Iff | asio/buffer.hpp:1767-1777 | a version 2 `shrink` in version 1 mode breaks the split unless n or the input is empty |
| StreamBuffers.StreamBuffer.constructor | asio/basic_streambuf.hpp:132-142 | empty, within the limit, even when the limit is zero |
| StreamBuffers.StreamBuffer.Reserve | asio/basic_streambuf.hpp:309-347 | throws exactly when size() + n exceeds the limit; otherwise keeps the input sequence through compaction and growth; all positions in every case |
| StreamBuffers.StreamBuffer.Rearrange | asio/basic_streambuf.hpp:322-346 | its slow path: bytes moved down, array replaced, positions reset; or the throw with the bytes already moved |
| StreamBuffers.StreamBuffer.Prepare | asio/basic_streambuf.hpp:215-220 | the same for the caller, with n bytes of output from `pptr` |
| StreamBuffers.StreamBuffer.Commit | asio/basic_streambuf.hpp:234-239 | `pptr` moves by the cast of the count; up to the largest int the first bytes of output are appended and the history is conserved |
| StreamBuffers.StreamBuffer.Consume | asio/basic_streambuf.hpp:248-255 | `gptr` moves as `ConsumeMove` says; within the bounds exactly min(n, size) bytes leave and the history is conserved |
| StreamBuffers.StreamBuffer.Underflow | asio/basic_streambuf.hpp:264-275 | returns the next byte or end of file, removes nothing, opens the whole input for reading |
| StreamBuffers.StreamBuffer.Overflow | asio/basic_streambuf.hpp:284-307 | throws exactly when a character is to be added to a full buffer, and then changes no content; otherwise appends that character |
| StreamBuffers.StreamBuffer.ReadSizeHelper | asio/basic_streambuf.hpp:354-360 | the proposed size fits the request and the limit, is zero only when it must be, and where neither binds is the larger of 512 and what the capacity still holds |
| StreamBuffers.PrepareForRead | asio/basic_streambuf.hpp:354-360 | preparing the proposed size never throws, makes that much room, and keeps the input sequence and the history |
| StreamBuffers.Append | asio/basic_streambuf.hpp:92-99 | prepare, write and commit, of no more than was prepared, append exactly what was written, or throw exactly when the room does not fit; the array afterwards is the old one or a new one |
| StreamBuffers.Step | asio/basic_streambuf.hpp:215-307 | any one operation that fits where the queue stands (`Fits`) acts on the input as on a plain bounded queue, and moves it in the array as `Moved` says |
| StreamBuffers.Run | asio/basic_streambuf.hpp:63-104 | over every run whose operations fit the int and address bounds where the queue then stands, for any limit, the stream buffer is a plain bounded queue: it holds the same bytes, throws exactly when the room asked for is not there, and what was consumed followed by what is left is what was appended |
| StreamBuffers.InBoundsFit | asio/basic_streambuf.hpp:309-347 | bounds on each operation that can be checked before the run are enough, whatever the limit of the buffer |
| StreamBuffers.DefaultLimit | asio/basic_streambuf.hpp:89-104 | the documented sequence of prepare, partial commit and consume on a buffer of the default limit leaves exactly the rest |
| StreamBuffers.CastKeepsLowBits | asio/basic_streambuf.hpp:237 | the cast stays in range and differs from the count by a multiple of 2^32 |
| StreamBuffers.CommitIsExactIff | asio/basic_streambuf.hpp:234-239 | the cast is harmless exactly up to the largest int |
| StreamBuffers.CommitGoesAstray | asio/basic_streambuf.hpp:234-239 | a buffer whose `pptr` is negative after two gibibytes were prepared and committed |
| StreamBuffers.ConsumeIsExactIff | asio/basic_streambuf.hpp:241-255 | exactly when `consume` removes min(n, size) bytes as documented |
| StreamBuffers.ConsumeAllMovesBack | asio/basic_streambuf.hpp:252-254 | consuming the largest size moves the position back by one |
| StreamBuffers.ConsumeGoesAstray | asio/basic_streambuf.hpp:248-255 | a buffer whose `gptr` is -1 after the largest size was consumed |
| StreamBuffers.ThrowPreservesIff | asio/basic_streambuf.hpp:323-341 | exactly when a throwing `prepare` leaves the input sequence as it was |
| StreamBuffers.ThrowDamages | asio/basic_streambuf.hpp:323-341 | a buffer of four bytes that, one consumed, is asked for two more: `prepare` throws and the input 1, 2, 3 has become 2, 3, 3 |
| Reactor.StepKeepsInv | HandleServerV2.cpp:31-344 | no atomic step of any thread breaks the invariant, and a pop always finds something |
| Reactor.ReachableInv | serverV2.cpp:149-204 | the invariant holds in every state of every interleaving |
| Reactor.ConnectionIsInOnePlace | serverV2.cpp:158-204 | in every interleaving an open connection is armed, reported, with the main thread, queued, owned or dropped: exactly one of these, once; a closed one none |
| Reactor.OwnerIsAlone | HandleServerV2.cpp:72-99 | a connection in a worker's hands is open, in no other worker's hands, and not armed, reported, queued or dropped |
| Reactor.ReusedDescriptorIsNowhere | serverV2.cpp:168-186 | when accept reuses a descriptor number, nothing still refers to its former life |
| Reactor.WorkIsNoticed | HandleServerV2.cpp:34-40 | mutex free and queue not empty: every worker not busy or gone can take the mutex; no pop from an empty queue |
| Reactor.SpuriousWakeIsHarmless | HandleServerV2.cpp:34-38 | a worker that wakes without cause tests the queue again and sleeps on, in the same state as before |
| Reactor.RequestsAreConserved | serverV2.cpp:188-198 | pushed = popped ++ queue; received = handled + waiting + in work + closed; closed + live workers = 10 |
| Reactor.BatchIsDispatched | serverV2.cpp:158-204 | from one epoll_wait to the next, in every interleaving, each connection reported with EPOLLIN is counted and pushed exactly once more, each one without is dropped, and nothing else is |
| Reactor.EventIsDispatched | serverV2.cpp:187-202 | one event: with EPOLLIN the request is counted and about to be pushed, without it the connection is dropped |
| Reactor.CanServe | HandleServerV2.cpp:31-40 | from every state with waiting work and a live worker some schedule takes work |
| Reactor.DeadPoolServesNothing | HandleServerV2.cpp:84-100 | once all workers are gone nothing is ever popped or handled again |
| Reactor.ServedIffWorkerLeft | HandleServerV2.cpp:84-100 | waiting requests can still be served if and only if fewer than ten connections were closed by workers |
| Reactor.PoolCanDie | HandleServerV2.cpp:84-100 | a state is reachable in which a request waits, ten connections have been closed and nothing can be served |
| Reactor.DroppedForever | serverV2.cpp:187-202 | a connection reported without EPOLLIN is never armed, pushed or closed again |
| Reactor.DropHappens | serverV2.cpp:187-202 | a reachable state in which an open connection is dropped |
| BloomFilter.HandlerHash | HandleServerV2.cpp:139-145 | no overflow; the base-131 number of the characters (see `CodeIsSignedChar`) modulo ten million; word index below 312,500 |
| BloomFilter.BuilderHash | serverV2.cpp:116-126 | the same value, in spite of its extra modulus |
| BloomFilter.CodeIsSignedChar | HandleServerV2.cpp:140-141 | a character counts as the signed char it is: its code up to 127, beyond that its eight bits in two's complement |
| BloomFilter.HashOfThree | HandleServerV2.cpp:139-145 | on short ASCII names the hash is the base-131 number itself |
| BloomFilter.SafeIffHashable | serverV2.cpp:116-122 | every intermediate value stays within int and the result within the bitmap for exactly the names in which no byte beyond ASCII follows a prefix whose number is a multiple of ten million |
| BloomFilter.NegativeStays | HandleServerV2.cpp:140-144 | a hash that has turned negative stays negative, and so misses the bitmap |
| BloomFilter.NonAsciiStart | serverV2.cpp:118-119 | a name that begins beyond ASCII is not hashable |
| BloomFilter.HashIsPolynomial | HandleServerV2.cpp:140-144 | conditional reduction computes the polynomial modulo ten million |
| BloomFilter.LoadFilter | serverV2.cpp:111-130 | the bits set are exactly the hash values of the loaded names |
| BloomFilter.OneMoreBit | serverV2.cpp:126-128 | loading a name sets its bit and clears none |
| BloomFilter.CountBits | serverV2.cpp:132-142 | the ones counted by shift and test are the set bits; ones and zeros make up the bitmap |
| BloomFilter.LoadAndReport | serverV2.cpp:111-143 | the ones reported are the distinct hash values of the loaded names |
| BloomFilter.FilteredLogin | HandleServerV2.cpp:137-216 | accepts only the password in the table, and accepts it whenever the name shares its hash with a loaded one |
| BloomFilter.FilterAgreesIff | HandleServerV2.cpp:145-154 | the filter never changes an answer if and only if every name in today's table shares its hash with a loaded one |
| BloomFilter.FilterAgreesAtStartup | HandleServerV2.cpp:153-216 | with the table as loaded, filtered and direct login agree |
| BloomFilter.LateRegistrationIsRefused | HandleServerV2.cpp:220-231 | a user registered later can be refused with the right password |
| Bits.TestsDigit | HandleServerV2.cpp:146 | `word & (1 << pos)` is non-zero exactly when that digit is set |
| Bits.DigitIsQuotient | serverV2.cpp:134-138 | the digit at a position is the quotient by the shifted one, modulo two |
| Bits.SetsDigit | serverV2.cpp:128 | `word \| (1 << pos)` sets that digit and changes no other |
| Text.TwoFields | HandleServerV2.cpp:111-304 | a tag occurs in a two-field message exactly when it occurs in a field: none arises across a boundary |
| Text.SecondLabel | HandleServerV2.cpp:133 | the second label is found at its own place exactly when the first field does not contain it |
| WireProtocol.LoginRoundTrip | client.cpp:92-94 | exactly when the server reads back the login the client printed |
| WireProtocol.RegisterRoundTrip | client.cpp:130-132 | the same for a registration |
| WireProtocol.TargetRoundTrip | client.cpp:170 | the same for the choice of a target |
| WireProtocol.CookieRoundTrip | client.cpp:53 | a cookie is always read back |
| WireProtocol.GroupRoundTrip | client.cpp:183 | a group number is always read back |
| WireProtocol.ContentRoundTrip | HandleClient.cpp:33-35 | exactly when a chat line is read back, sent on the given socket |
| WireProtocol.GroupMessageRoundTrip | HandleClient.cpp:37-40 | the same for a group line, sent on the negated socket |
| WireProtocol.CutNameAndPass | HandleServerV2.cpp:220-223 | the substr arithmetic recovers both fields exactly when the second label is found at its own place |
| WireProtocol.StoIOfToString | HandleServerV2.cpp:288-289 | `stoi` undoes `to_string` on every int |
| WireProtocol.StoIReads | HandleServerV2.cpp:288-289 | `stoi` reads a number after any white space and sign, whatever follows, and throws exactly when it is not an int |
| WireProtocol.StoINeedsDigit | HandleServerV2.cpp:288-289 | without a digit after white space and sign it throws |
| WireProtocol.MessageKind | HandleServerV2.cpp:111-325 | every message is taken for what the first of the seven tags in it says, and ignored when it has none; what is read from it |
| WireProtocol.ThrowsIff | HandleServerV2.cpp:234-301 | the parser throws exactly on a target message whose first "from" ends it and on a group message without an int |
| WireProtocol.NameAndPassRead | HandleServerV2.cpp:132-134 | what is read as name and password of any message: the name has the length it would have with its label in front |
| WireProtocol.TargetAndFromRead | HandleServerV2.cpp:234-241 | what is read as target and sender of any message that does not throw |
| WireProtocol.StopsAtExit | HandleClient.cpp:26-42 | a chat ends at the line "exit" and nowhere else; nothing is sent without a socket |
| WireProtocol.WireFormat | client.cpp:92-183 | the texts of the messages, one of each kind |
| Routing.Router.LogIn | HandleServerV2.cpp:178-180 | the name stands for this connection from now on, whatever it stood for before; no other name and no other map changes |
| Routing.Router.SetTarget | HandleServerV2.cpp:234-252 | the choice is recorded exactly when the target is known, and for that user alone; otherwise nothing changes |
| Routing.Router.Say | HandleServerV2.cpp:255-283 | the new maps with their default insertions, and what is sent to whom, for every iteration order |
| Routing.Router.JoinGroup | HandleServerV2.cpp:286-301 | the connection is added to the members of that group, which is made if it is new; no other group changes |
| Routing.Router.SayToGroup | HandleServerV2.cpp:304-325 | each other member of the first group found gets the line once, under the sender's name, in the order of descriptors; a missing group is made |
| Routing.Broadcast | HandleServerV2.cpp:321-324 | each member but the sender exactly once, in the order of descriptors |
| Routing.TargetsAreKnown | HandleServerV2.cpp:241-261 | over every run, every value in from_to_map is a key of name_sock_map |
| Routing.MapsRemember | HandleServerV2.cpp:117-261 | over every run the maps hold exactly the latest logins and the latest accepted targets, and default insertions add only the empty name |
| Routing.SaidIsDelivered | HandleServerV2.cpp:255-283 | whoever is found behind a connection last logged in over it, and the line goes, under that name, to the latest connection of the last target accepted for that user, or to descriptor 0 when there is none; nobody is found only when nobody's latest login came over it |
| Routing.SaidInserts | HandleServerV2.cpp:258-263 | looking up inserts: whoever is found to say something has a target from then on, and that target a connection; nothing else is inserted |
| Routing.OwnerIsCertainIff | HandleServerV2.cpp:258-265 | a user is found behind a connection in every iteration order if and only if that user, and no other, stands for it: by the latest login, or as the empty name inserted for descriptor 0 |
| Routing.OwnerIsFirst | HandleServerV2.cpp:258-265 | the user found is the first in iteration order whose connection it is |
| Routing.ReuseIsAmbiguous | HandleServerV2.cpp:258-265 | two logins over one descriptor, and two orders that find different users |
| Routing.GroupsRemember | HandleServerV2.cpp:286-301 | over every run a connection is in a group exactly when it has joined it |
| Routing.SaidToGroupIsDelivered | HandleServerV2.cpp:311-324 | the group found is one the sender joined, or the stale number if there is none; the line goes, once each, to exactly the others that ever joined that group |
| Routing.GroupIsMade | HandleServerV2.cpp:311-322 | looking up the group makes it when it is missing and changes no members |
| Routing.GroupIsCertainIff | HandleServerV2.cpp:311-316 | a group is found for a connection in every iteration order if and only if it is the one group the connection joined |
| Routing.GroupIsFirst | HandleServerV2.cpp:311-316 | the group found is the first in iteration order that holds the connection |
| Routing.CurrentOrLeftBehind | HandleServerV2.cpp:84-100 | over every run, a connection that joined a group is current exactly when it was not closed after that without joining again |
| Routing.GroupLineStaysCurrentIff | HandleServerV2.cpp:321-324 | a group line goes to current members alone if and only if every other connection closed after joining has joined again |
| Routing.ClosedStillHears | HandleServerV2.cpp:321-324 | a run after which a group line goes to a closed connection |
| Routing.ReachesTargetIff | HandleServerV2.cpp:258-283 | a private line reaches its target's own connection if and only if the target has logged in and that descriptor was not closed since |
| Routing.StrangerGetsTheLine | HandleServerV2.cpp:258-283 | a run after which a line meant for one user goes to another who got the descriptor |
| Routing.PrivateChat | HandleServerV2.cpp:234-283 | from the line typed in one client to the line received by another, through printing, parsing and routing, whatever others do in between |

## Left out

- Sockets, epoll, MySQL, Redis and fcntl calls are nondeterministic steps or parameters; the user table is a map with exact string equality, and allocation never fails.
- The receive loop of ten bytes at a time in HandleServerV2.cpp: parsing starts from a complete message, so the terminator a client sends after a cookie is not modelled.
- `exit(1)` after a failed accept or fcntl, and the process ending on an exception that a message provokes: a run of the reactor simply ends there.
- The unsynchronised reads of the maps in the handler: each message's work on the maps is one atomic step, and only the queue's mutex is modelled.
- Session ids, timing statistics, console output and the client's menu.
- `BloomFilter.LoadFilter`: requires hashable names, because for any other the original indexes outside its bitmap or overflows.
- `BloomFilter.LoadAndReport`: requires hashable names, for the same reason.
- `BloomFilter.FilteredLogin`: requires a hashable name, for the same reason.
- `StreamBuffers.Run`: ends at the first exception, and assumes of each `commit` and `consume` what `CommitIsExactIff` and `ConsumeIsExactIff` show to be necessary.
- `Routing.EventOf`: covers only target and content messages; a login becomes an event when `FilteredLogin` or the session store accepts it.
- `data(pos, n)` and `capacity()` of the dynamic buffers, `basic_streambuf_ref`, and the remaining asio headers: thin forwarding.
- `sbumpc`, `sputc` and the rest of `std::streambuf`, whose code is not part of this model.
- `server.cpp`, `serverUseThreadPool.cpp` and their handlers: earlier versions of the same server.

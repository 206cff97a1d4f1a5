# MyRedis, modelled and verified

MyRedis is a small in-memory key-value server that speaks the Redis protocol.
This project models its hard core in Dafny 4.11 and proves what it promises;
`dafny verify dfyconfig.toml` checks all of it.

The model has five parts, bottom up.

- **The store** (`Base`, `Store`, `Expiry`, `Deadlines`, `ListLaws`, `Database`).  Strings and lists
  live in two maps, deadlines in a third.  Nearly every command removes expired
  keys it meets, and a background sweep removes others.  The main theorem says
  that none of this can be observed: every run refines a run of a plain live
  view, a map from keys to values and deadlines.  The count of DEL is the one
  exception, and `DelCountExact` says exactly when it shows.
- **Snapshots** (`Polynomial`, `Crc`, `Codec`, `Persistence`, `Recovery`).  The
  table-driven checksum is proved to be CRC-32 by polynomial division, saving
  and loading is proved to be a faithful round trip between two clocks, and
  damage within four bytes is proved to be noticed.
- **The protocol** (`Text`, `Numbers`, `Numbering`, `Parser`, `Spelling`, `Resp`,
  `Requests`, `Server`, `Framing`, `Client`, `Reply`, `Forms`, `RoundTrip`,
  `ListReply`, `Shown`, `Confirmations`).  Commands survive any
  division of the byte stream into reads.  Replies are turned into the wire form
  by guessing their kind from their text; `ShownExactly` says for exactly which
  texts the client shows what the handler wrote.
- **Subscriptions** (`Relation`, `PubSub`).  Two indexes stay each other's
  converse through every operation, send failures included.
- **Commands and transactions** (`Commands`, `Catalogue`, `Errors`, `Simulation`,
  `Transactions`, `Handler`, `Sessions`, `Execution`, `Courses`, `Connections`,
  `Conversation`).  MULTI, EXEC, DISCARD and WATCH of one handler, as runs in a
  world that other clients change between the steps.  Worlds with one live view
  cannot be told apart by any command of any client; on this rest the comparison
  of EXEC with sending the same commands directly, and what remains of
  transactions over connections.  `Talk` joins the parts, from the bytes a client
  sends to the texts it shows.

What the functions of the model compute is stated once more in plain terms, apart
from them: `Deadlines` and `SaveCarried` in nanoseconds, `Numbers`, `Spelling`,
`Requests` and `Forms` character by character, the layout lemmas of `Codec` byte by
byte, and `Catalogue` command by command, by name.

Objects that the program updates in place are classes, and each of their
methods is proved against a function or relation on values; the theorems are
about those.  A hash map is iterated in arbitrary order.  Clock readings are
integers, one for each locked operation and one for each handler call.  Whether a send or a
save succeeds, and the head of the INFO text, are parameters.  Where the code
does what its documentation does not say, the model follows the code:

- WATCH compares lists by length, and records a missing key as a list of
  length 0 (`ChangeSeenExactly`, `SameLengthMissed`, `MissingSeenExactly`).
- EXEC first reads the watched keys and so removes those that have expired,
  which a DEL in its queue can count (`ExecIsDirect`, `DelCountsInExec`), and a
  SUBSCRIBE in the queue does not restrict what follows it (`DirectExactly`,
  `SubscribeInput`).
- The server makes a new handler for each command, so transactions work on a
  handler object but not over a connection (`ConnectionIgnoresTransactions`).
- SET with a bad EX option replies with an error after it has stored the value
  (`ErrorKeepsStoreExactly`, `SetErrorWrites`).
- GET, LPOP, RPOP, LRANGE and LINDEX on a value of the wrong type answer as if
  the key were missing (`WrongTypeExactly`, `WrongTypeInput`).
- A bare newline ends an inline command only until a CRLF arrives behind it
  (`InlineFinalExactly`, `BareNewlineRevised`), so what is dispatched can depend on
  how the bytes are cut into reads (`CuttingMatters`).
- A loaded file may put one key in both maps or store an empty list
  (`LoadConsistentExactly`, `DoubleEntry`, `LoadSoundExactly`, `EmptyEntry`).
- A confirmation is sent as words of a line, so it holds only for channel names
  without blanks (`ConfirmedExactly`); several confirmations are several values to
  the client, which takes one for the reply and shows the rest in the place of
  later replies (`ConfirmationsRead`, `LaterRepliesShift`).
- An error that quotes a command name with CRLF in it is cut short
  (`ErrorTripsExactly`, `UnknownWithCrlf`).

## Model

| member | source | states |
|---|---|---|
| `Expiry.ExpiryInvisible` | src/database/database.cpp:43-437 | two stores with the same live view, given the same requests at the same non-decreasing times, give the same replies (DEL counts aside, KEYS as a set) and end with the same live view, whatever sweeps are interleaved in each run |
| `Expiry.RunRefines` | src/database/database.cpp:27-437 | every run of commands and sweeps on the three maps is a run of the live view alone, in which expiry does not exist as a mechanism |
| `Expiry.Refines` | src/database/database.cpp:27-437 | each operation keeps the maps consistent and is, on the live view, the plain map operation of the same name |
| `Expiry.AnswersFromView` | src/database/database.cpp:43-437 | every answer except the count of DEL is a function of the live view |
| `Expiry.PurgeInvisible` | src/database/database.cpp:520-532 | removing expired keys changes the live view neither now nor later |
| `Expiry.DelCountExact` | src/database/database.cpp:62-77 | the count of DEL is the number of live keys named if and only if no named key is expired and still stored |
| `Expiry.DelCountDiffers` | src/database/database.cpp:62-77 | two stores with one live view on which DEL counts differently |
| `ListLaws.RunKeepsInvariant` | src/database/database.cpp:27-516 | over every run no key is in both maps, every deadline belongs to a stored key and no stored list is empty |
| `ListLaws.QueueLaw` | src/database/database.cpp:171-278 | pushing values at one end of an absent key and popping as many from the other returns them in order and leaves the live view as it was, key and deadline gone, whatever sweeps run in between |
| `ListLaws.PopAll` | src/database/database.cpp:214-278 | popping a list as often as it is long yields its elements in order and removes the key |
| `ListLaws.IndexExactly` | src/database/database.cpp:341-367 | LINDEX on a live list answers the element at a position from 0, or counted back from the end from -1, and nothing for any other position |
| `ListLaws.RangeExactly` | src/database/database.cpp:280-317 | LRANGE on a live list between two positions, both counted from the front or both from the end, or beyond an end, in plain slices |
| `ListLaws.ExistsExactly` | src/database/database.cpp:79-93 | EXISTS counts 1 for a live key and 0 for another, and adds up over the names, so that a key named twice counts twice |
| `Deadlines.ExpireExactly` | src/database/database.cpp:371-390 | a live key given n > 0 seconds at a time is live, with its value, at exactly the times before that time plus n thousand million nanoseconds |
| `Deadlines.TtlExactly` | src/database/database.cpp:392-419 | meanwhile TTL answers the nanoseconds left divided by a thousand million, n at once |
| `Deadlines.ExpireMissing` | src/database/database.cpp:371-419 | EXPIRE of a key that is not live answers 0 and brings nothing to life; TTL answers -2 |
| `Deadlines.SetStays` | src/database/database.cpp:27-41 | after SET the key holds the string at every later time and TTL answers -1 |
| `Deadlines.PersistStays` | src/database/database.cpp:421-437 | after PERSIST a live key keeps its value at every later time and TTL answers -1 |
| `ListLaws.SliceCovers` | src/database/database.cpp:280-367 | LRANGE returns exactly the positions from start to stop, negative ones counted from the end, and LINDEX finds each of its elements |
| `Database.Database.Sweep` | src/database/database.cpp:474-493 | looks at up to 20 expiry entries in map order, at all of them if there are fewer, and removes from all three maps exactly those that have expired |
| `Database.Database.Set` | src/database/database.cpp:27-41 | replaces any value of the key and drops its deadline; the new maps and the answer are those of the store model that Expiry refines |
| `Database.Database.Get` | src/database/database.cpp:43-60 | the live string; an expired key is removed first; the new maps and the answer are those of the store model that Expiry refines |
| `Database.Database.Del` | src/database/database.cpp:62-77 | removes the keys from both maps and counts each stored one once; the new maps and the answer are those of the store model that Expiry refines |
| `Database.Database.Exists` | src/database/database.cpp:79-93 | counts every position that names a live key; the new maps and the answer are those of the store model that Expiry refines |
| `Database.Database.Keys` | src/database/database.cpp:95-128 | each live key once for each map that holds it, in any order; expired keys are removed; the new maps and the answer are those of the store model that Expiry refines |
| `Database.Database.DbSize` | src/database/database.cpp:130-160 | the number of live keys; the new maps and the answer are those of the store model that Expiry refines |
| `Database.Database.LPush` | src/database/database.cpp:171-191 | prepends the reversed values, or -1 on a string; the new maps and the answer are those of the store model that Expiry refines |
| `Database.Database.RPush` | src/database/database.cpp:193-212 | appends the values, or -1 on a string; the new maps and the answer are those of the store model that Expiry refines |
| `Database.Database.LPop` | src/database/database.cpp:214-245 | the first element; a list that becomes empty takes key and deadline with it; the new maps and the answer are those of the store model that Expiry refines |
| `Database.Database.RPop` | src/database/database.cpp:247-278 | the last element; a list that becomes empty takes key and deadline with it; the new maps and the answer are those of the store model that Expiry refines |
| `Database.Database.LRange` | src/database/database.cpp:280-317 | the reference slice of the live list; the new maps and the answer are those of the store model that Expiry refines |
| `Database.Database.LLen` | src/database/database.cpp:319-339 | the length of the live list, 0 for no key, -1 for a string; the new maps and the answer are those of the store model that Expiry refines |
| `Database.Database.LIndex` | src/database/database.cpp:341-367 | the element at a position counted from either end; the new maps and the answer are those of the store model that Expiry refines |
| `Database.Database.Expire` | src/database/database.cpp:371-390 | sets the deadline of a live key; the new maps and the answer are those of the store model that Expiry refines |
| `Database.Database.Ttl` | src/database/database.cpp:392-419 | whole seconds left, -1 without a deadline, -2 without a key; the new maps and the answer are those of the store model that Expiry refines |
| `Database.Database.Persist` | src/database/database.cpp:421-437 | drops the deadline of a live key; the new maps and the answer are those of the store model that Expiry refines |
| `Database.Database.CopyRange` | src/database/database.cpp:294-316 | the reference slice of any list; for a length and arguments that fit in 32 bits, every value the index arithmetic takes fits as well |
| `Polynomial.RegisterComputesChecksum` | src/persistence/persistence.cpp:17-27 | the shift register with all-ones preset and final inversion computes the remainder of polynomial division that section 8.1.1.6.2 of ITU-T V.42 defines |
| `Polynomial.FeedDivides` | src/persistence/persistence.cpp:17-27 | feeding bits to the register is long division of the message by the generator |
| `Polynomial.ByteAtOnce` | src/persistence/persistence.cpp:119-143 | eight bit steps are one table step, by linearity of the bit step |
| `Polynomial.WindowInjective` | src/persistence/persistence.cpp:119-143 | from one register state, different windows of at most 32 bits lead to different states |
| `Polynomial.BurstDetected` | src/persistence/persistence.cpp:119-143 | messages that differ only within 32 consecutive bits have different checksums |
| `Crc.GenerateEntry` | src/persistence/persistence.cpp:17-27 | a table entry is eight bit steps of its index |
| `Crc.BuildTable` | src/persistence/persistence.cpp:31-38 | all 256 entries |
| `Crc.LookUp` | src/persistence/persistence.cpp:119-143 | one table step feeds the eight bits of a byte |
| `Crc.ComputeCrc32` | src/persistence/persistence.cpp:119-143 | reading in 4096-byte chunks yields the CRC-32 of the first bytes of the file, up to its end |
| `Crc.CheckValue` | src/persistence/persistence.cpp:17-143 | the checksum of the nine digits 123456789 is CBF43926, the check value of CRC-32 |
| `Crc.WordBitsInjective` | src/persistence/persistence.cpp:119-143 | a word is determined by its coefficients |
| `Crc.FourBytesAreBurst` | src/persistence/persistence.cpp:119-143 | a change within four consecutive bytes is a burst of at most 32 bits |
| `Codec.U32Layout` | src/persistence/persistence.cpp:50-69 | a 32-bit number is four bytes, the highest first |
| `Codec.I64Layout` | src/persistence/persistence.cpp:71-98 | a 64-bit number is the 32-bit numbers of its upper and lower half, in two's complement |
| `Codec.TextLayout` | src/persistence/persistence.cpp:100-115 | a string is its length as a 32-bit number and then its characters |
| `Codec.EntryLayout` | src/persistence/persistence.cpp:188-251 | an entry is the type, 0 or 1, the flags, 0 or 1, the key, the value, and the remaining time if there is one |
| `Codec.OtherFlagsIgnored` | src/persistence/persistence.cpp:360-449 | an entry is read the same whatever the other bits of its flags |
| `Codec.OtherTypesRejected` | src/persistence/persistence.cpp:360-449 | an entry of any other type is rejected |
| `Persistence.FileLayout` | src/persistence/persistence.cpp:147-301 | a file is nine given bytes, the number of entries, the entries, and the checksum |
| `Codec.U32Back` | src/persistence/persistence.cpp:50-69 | a 32-bit integer is read back as written |
| `Codec.I64Back` | src/persistence/persistence.cpp:71-98 | a signed 64-bit integer is read back as written |
| `Codec.StrBack` | src/persistence/persistence.cpp:100-115 | a string is read back as written |
| `Codec.RecordBack` | src/persistence/persistence.cpp:355-449 | an entry of either type, with or without TTL, is read back and the reader stops right behind it |
| `Codec.RecordsBack` | src/persistence/persistence.cpp:355-449 | any number of entries in a row are read back |
| `Persistence.Save` | src/persistence/persistence.cpp:147-301 | for some order of each map, the file is the magic, the count, one entry for each live key, and a matching checksum |
| `Persistence.WriteStrings` | src/persistence/persistence.cpp:188-217 | exactly the live strings, each once, in any order |
| `Persistence.WriteLists` | src/persistence/persistence.cpp:219-251 | exactly the live lists, each once, in any order |
| `Persistence.CountLive` | src/persistence/persistence.cpp:165-182 | the entry count is the number of live keys |
| `Persistence.Seal` | src/persistence/persistence.cpp:264-285 | the trailer is the checksum of everything before it |
| `Persistence.Validate` | src/persistence/persistence.cpp:312-347 | accepts exactly the files that are long enough, whose checksum matches and that start with the magic |
| `Persistence.ReadEntry` | src/persistence/persistence.cpp:360-449 | reads an entry, or fails where one is malformed |
| `Persistence.ReadItems` | src/persistence/persistence.cpp:416-425 | reads the elements of a list, or fails |
| `Persistence.Load` | src/persistence/persistence.cpp:305-457 | the database becomes what the entries restore, or stays as it is when the file is rejected |
| `Recovery.RoundTrip` | src/persistence/persistence.cpp:147-452 | for any order of the maps, saving at one time and loading at another restores exactly the keys without TTL or with at least 1 ms left, with the same values, each deadline rebased to the loading clock in whole milliseconds |
| `Recovery.SaveCarried` | src/persistence/persistence.cpp:147-452 | in nanoseconds: a key with a deadline is restored if and only if at least 1000000 are left at the save, and what is left after the load is the same cut down to a multiple of 1000000; keys without a deadline are restored without one; nothing else is restored |
| `Recovery.RestoredIsSound` | src/persistence/persistence.cpp:341-452 | the restored store keeps the store invariant and shows every kept key |
| `Recovery.SaveAndLoad` | src/persistence/persistence.cpp:147-457 | the same of the two operations run one after the other on two databases, in the terms of the code and in plain numbers |
| `Recovery.LoadConsistentExactly` | src/persistence/persistence.cpp:355-452 | a file with a correct checksum loads into a consistent store if and only if no key occurs as a string and as a list |
| `Recovery.DoubleEntry` | src/persistence/persistence.cpp:355-452 | builds a file with a correct checksum and one key under both types, which loads into an inconsistent store |
| `Recovery.LoadSoundExactly` | src/persistence/persistence.cpp:355-452 | it loads into a store with the whole invariant if and only if, besides, every empty list it enters is replaced by a later entry of the same key |
| `Recovery.EmptyEntry` | src/persistence/persistence.cpp:355-452 | builds a file with a correct checksum that stores an empty list: consistent, and against the invariant |
| `Recovery.BurstRejected` | src/persistence/persistence.cpp:321-339 | damage to at most 32 consecutive bits of the data part is rejected |
| `Recovery.FourBytesRejected` | src/persistence/persistence.cpp:321-339 | changing any of four consecutive bytes of the data part is rejected |
| `Recovery.TrailerRejected` | src/persistence/persistence.cpp:321-339 | changing the stored checksum alone is rejected |
| `Text.SearchCrlf` | src/resp/resp.cpp:14-21 | the first CRLF at or after a position |
| `Text.ReadBack` | src/resp/resp.cpp:199-205 | a printed decimal number is read back |
| `Numbers.WrittenExactly` | src/resp/resp.cpp:199-205 | a digit is written as its character, further digits behind it, and a minus before a negative number |
| `Numbers.NumberReadExactly` | src/commands/command_handler.cpp:102-110 | a text of blanks, an optional sign, digits, and anything that is no digit is read as that number if it fits in 32 bits, or 64, and not at all otherwise |
| `Numbers.NoNumberExactly` | src/commands/command_handler.cpp:102-110 | a text with no digit behind its blanks and sign is no number |
| `Spelling.TokensExactly` | src/parser/parser.cpp:7-65 | a line of words, bare, in single quotes or in double quotes with escapes, between any blanks, with blanks needed only behind a bare word and the last quote left open or not, is tokenized as what the words mean |
| `Parser.Tokenize` | src/parser/parser.cpp:7-65 | the loop computes the tokens of the recursive reference tokenizer |
| `Parser.QuotingUndone` | src/parser/parser.cpp:7-85 | double-quoting words with escapes and joining them with blanks is undone by the tokenizer, for every list of byte strings |
| `Resp.ParseRespArray` | src/resp/resp.cpp:41-133 | the array parser computes its recursive reference on every buffer |
| `Resp.ParseBulks` | src/resp/resp.cpp:70-119 | the bulk strings of an array, in order, or the first verdict that is not success |
| `Resp.JoinArray` | src/resp/resp.cpp:219-225 | the head with the element count, then the elements |
| `Resp.CommandBack` | src/resp/resp.cpp:41-133 | every non-empty list of byte strings encoded as an array is parsed back, name upper-cased, and exactly its bytes are consumed, whatever follows |
| `Resp.ArrayStands` | src/resp/resp.cpp:41-133 | an encoded array is parsed as its arguments and a name of the same length, in which each letter from a to z is the one 32 below and every other character is the same |
| `Resp.LineStands` | src/resp/resp.cpp:135-185 | so is a line of quoted words |
| `Resp.CaseIgnored` | src/parser/parser.cpp:67-85 | two requests whose names differ only in the case of letters, as arrays or one as a quoted line, are one command |
| `Requests.ArrayExactly` | src/resp/resp.cpp:41-133 | an array of strings and of null strings, each with any negative length, is parsed as the command of those strings, a null one empty |
| `Requests.EmptyArrayRejected` | src/resp/resp.cpp:61-68 | an array of no elements or fewer is rejected |
| `Requests.UncountedRejected` | src/resp/resp.cpp:52-59 | an array whose count is no number is rejected |
| `Requests.MalformedRejected` | src/resp/resp.cpp:70-119 | behind any good elements, one without a dollar sign, without a number, or not followed by CRLF makes the array rejected |
| `Requests.InlineExactly` | src/resp/resp.cpp:135-185 | a line of words, however written, is parsed as the command they mean and exactly that line is consumed |
| `Requests.BlankLineExactly` | src/resp/resp.cpp:135-185 | a line of blanks and tabs is consumed in silence; one with other white space in it is rejected |
| `Requests.NoLineYetExactly` | src/resp/resp.cpp:135-160 | without the end of a line, the parser waits up to 65536 bytes and then rejects |
| `Resp.VerdictFinal` | src/resp/resp.cpp:41-133 | on a buffer that starts with * an accepted command depends only on the bytes it consumes and a rejection survives any further bytes |
| `Resp.PrefixNeedsMore` | src/resp/resp.cpp:41-133 | every proper prefix of an encoded command needs more and consumes nothing |
| `Resp.QuotedLineBack` | src/resp/resp.cpp:135-185 | a line of quoted words is parsed back and exactly that line is consumed, whatever follows |
| `Server.Connection.ProcessClient` | src/networking/server.cpp:234-314 | the loop over the buffer dispatches, keeps and stops as the reference drain does |
| `Requests.QuitEnds` | src/networking/server.cpp:276-280 | QUIT in any spelling ends the connection without being dispatched |
| `Requests.UnsendableEnds` | src/networking/server.cpp:306-310 | a reply that cannot be sent ends the connection right behind its command |
| `Requests.FloodEnds` | src/networking/server.cpp:268-271 | more than 67108864 bytes behind a command end the connection before it is dispatched |
| `Requests.RejectedEnds` | src/networking/server.cpp:241-266 | what is rejected ends the connection, what is incomplete is kept, what is skipped leaves no trace |
| `Server.ParseConsumes` | src/networking/server.cpp:239-266 | what is consumed is at least one byte for a command and never more than was received, so the loop ends |
| `Framing.CommandsDelivered` | src/networking/server.cpp:212-311 | any list of commands other than QUIT, each encoded as an array or as a short enough line of quoted words, is dispatched command by command, each once and in order, however its bytes are cut into reads of 1 to 4096; the buffer ends empty |
| `Framing.ReceiveCommands` | src/networking/server.cpp:212-314 | the same of a new connection object that is given those reads |
| `Framing.StreamDelivered` | src/networking/server.cpp:234-311 | however a stream of self-delimiting frames is cut into reads, and whatever incomplete bytes are kept from before, every command is dispatched exactly once and in order and the buffer ends empty |
| `Framing.ArrayIsFrame` | src/resp/resp.cpp:41-133 | every command other than QUIT, encoded as an array, is a frame: accepted whatever follows, and no proper prefix of it is accepted or rejected |
| `Framing.QuotedLineIsFrame` | src/resp/resp.cpp:135-185 | a line of quoted words is a frame if and only if it is shorter than the longest line the parser waits for |
| `Framing.WaitingIsIdle` | src/networking/server.cpp:234-311 | when the connection is kept, the buffer is empty or holds something incomplete of which nothing can be consumed |
| `Framing.ConsumesNewBytes` | src/networking/server.cpp:212-271 | after a read, the first consumption ends strictly behind the bytes kept from before |
| `Framing.NeverFloods` | src/networking/server.cpp:268-271 | the 64 MB guard never cuts off a stream |
| `Framing.ReceiveAll` | src/networking/server.cpp:212-314 | over a whole connection, with its own send failures at each read: dispatches and stops as the reference does, idle between reads, never flooded |
| `Framing.BareNewlineRevised` | src/resp/resp.cpp:135-185 | two bare words: the first with a bare newline is accepted as a command, and with the second word and CRLF behind it is accepted as another |
| `Framing.CuttingMatters` | src/networking/server.cpp:234-311 | the same bytes with a bare newline in them are dispatched as two commands in two reads and as one command in one read |
| `Framing.InlineFinalExactly` | src/resp/resp.cpp:135-185 | an accepted inline command is final if and only if its line ended in CRLF |
| `Client.Client.ParseRespValue` | src/networking/client.cpp:117-262 | computes the index-based recursive parser, at any nesting depth, and puts the buffer back on every path |
| `Client.Client.ParseElements` | src/networking/client.cpp:217-250 | the elements of an array, each parsed from a tail that stands in for the buffer |
| `Client.Client.ReadRespResponse` | src/networking/client.cpp:82-105 | however the bytes arrive, the value is the one the whole input starts with and the rest stays for the next read |
| `Client.ParseAt` | src/networking/client.cpp:117-262 | a parsed value takes at least two bytes and ends within the buffer, at any nesting depth, so no slice is out of range and the recursion ends |
| `Client.ParseTail` | src/networking/client.cpp:225-246 | parsing a tail of the buffer is parsing the buffer at that position |
| `Client.ParseLocal` | src/networking/client.cpp:117-262 | a value depends only on the bytes it occupies |
| `Client.ParseGrows` | src/networking/client.cpp:82-105 | a complete value stays the same when more bytes arrive |
| `Reply.SerializeResponse` | src/resp/resp.cpp:227-366 | the wire form by the first pattern that fits, recursively for the lines of a list |
| `Forms.FixedForms` | src/resp/resp.cpp:227-252 | the wire forms of the three statuses, of nothing, and of the empty list |
| `Forms.ErrorForm` | src/resp/resp.cpp:253-264 | a text that starts with ERR, WRONGTYPE or NOAUTH is sent as an error line |
| `Forms.IntegerForm` | src/resp/resp.cpp:266-276 | an integer text with a 64-bit number is sent as an integer line |
| `Forms.QuotedForm` | src/resp/resp.cpp:278-282 | a text in quotes is sent as a bulk string without them |
| `Forms.ListForm` | src/resp/resp.cpp:284-312 | a text that starts with a digit from 1 to 9 and a parenthesis is sent as an array of its lines |
| `Forms.PlainForm` | src/resp/resp.cpp:359-366 | any other text is sent as a bulk string |
| `Forms.LineShown` | src/networking/client.cpp:117-170 | the client shows a status or an error without its mark, an integer behind a word, and a line of another kind as it is |
| `Forms.NothingShown` | src/networking/client.cpp:117-215 | the client shows any negative length or count as nothing |
| `Forms.UnreadableShown` | src/networking/client.cpp:117-215 | the client reports a length or count that is no number |
| `ListReply.FaithfulTrips` | src/resp/resp.cpp:227-312 | for nil, the three statuses, any 64-bit integer, any quoted byte string, errors without CRLF, and non-empty lists of one-line replies of these kinds, the client shows exactly the text the handler wrote and consumes exactly its wire form |
| `Shown.ShownExactly` | src/resp/resp.cpp:227-366 | of all texts, exactly those of such replies are shown by the client as written |
| `RoundTrip.ErrorTripsExactly` | src/resp/resp.cpp:253-264 | an error is shown as written if and only if it holds no CRLF |
| `ListReply.ShapeKeptExactly` | src/resp/resp.cpp:284-312 | numbered texts are sent as one element each if and only if each is on one line |
| `ListReply.StringsSentExactly` | src/commands/command_handler.cpp:143-154 | the strings of KEYS or LRANGE reach the wire as they are if and only if none holds a newline |
| `ListReply.ListTextAmbiguous` | src/commands/command_handler.cpp:289-294 | with a newline in an element, two different lists have one text |
| `ListReply.EmptyListRenamed` | src/networking/client.cpp:211-215 | an empty list is shown as an empty array, not as the handler wrote it |
| `ListReply.ReadReplies` | src/networking/client.cpp:82-262 | faithful replies that arrive in any pieces are shown one by one as the handler wrote them |
| `Confirmations.ConfirmedExactly` | src/resp/resp.cpp:314-357 | the confirmation of one channel reaches the wire as kind, channel and count if and only if the channel name is not empty and has no blank in it |
| `Confirmations.ConfirmationsRead` | src/resp/resp.cpp:314-357 | the one reply to a SUBSCRIBE or UNSUBSCRIBE of several channels is read by the client as that many values |
| `Confirmations.MessageSent` | src/resp/resp.cpp:314-357 | a message as a text, with a channel without blanks and a payload on one line, is sent as the array of a published one, the payload a string even if it is a number |
| `Confirmations.LaterRepliesShift` | src/networking/client.cpp:82-105 | after two or more confirmations the client takes the second one for the reply to its next command, whatever that reply is |
| `Conversation.Talk` | src/networking/server.cpp:212-314 | end to end: commands sent as arrays or quoted lines, cut anywhere, each given to a new handler, replies serialized and cut anywhere: the client shows the replies of the handlers, in order, if each is a text that it shows as written |
| `Conversation.ServeAll` | src/networking/server.cpp:277-308 | the handler objects made one for each command go through such a stream, and the bytes sent back are the wire forms of their replies |
| `ListReply.PublishedShown` | src/pubsub/pubsub.cpp:96-104 | a published message, built as an array of three bulk strings, is shown with its channel and payload, whatever bytes they hold |
| `PubSub.PubSubManager.Subscribe` | src/pubsub/pubsub.cpp:8-28 | adds exactly the named subscriptions, keeps the two indexes converse, and reports the count after each |
| `PubSub.PubSubManager.Unsubscribe` | src/pubsub/pubsub.cpp:30-86 | removes exactly the named subscriptions, or all of the client, keeps the indexes converse, and reports the count after each |
| `PubSub.PubSubManager.Publish` | src/pubsub/pubsub.cpp:88-140 | sends the message, as an array of three bulk strings, to each subscriber of the channel once, leaves on the channel exactly those that were reached, every other channel untouched, and returns their number |
| `PubSub.PubSubManager.ClientDisconnected` | src/pubsub/pubsub.cpp:148-169 | removes the subscriptions of one client and no others |
| `PubSub.PubSubManager.ActiveChannelCount` | src/pubsub/pubsub.cpp:171-174 | the number of channels with a subscriber |
| `PubSub.PubSubManager.TotalSubscriptionCount` | src/pubsub/pubsub.cpp:176-183 | the number of subscriptions |
| `PubSub.Run` | src/pubsub/pubsub.cpp:8-169 | after any run of subscribe, unsubscribe, publish with any send failures, and disconnect, the indexes are each other's converse, neither holds an empty set, and the subscriptions are those of the reference |
| `PubSub.JoinNoticeAt` | src/pubsub/pubsub.cpp:8-28 | each confirmation counts what is subscribed after its channel |
| `PubSub.LeaveNoticeAt` | src/pubsub/pubsub.cpp:30-86 | each confirmation counts what is left after its channel |
| `PubSub.LeaveAllCounts` | src/pubsub/pubsub.cpp:30-86 | leaving everything reports n-1 down to 0 and leaves nothing |
| `PubSub.SubscribedIs` | src/pubsub/pubsub.cpp:142-146 | a client is subscribed if and only if it has a subscription |
| `Relation.ConverseSize` | src/pubsub/pubsub.cpp:171-183 | the two indexes hold equally many pairs |
| `Relation.SumsAgree` | src/pubsub/pubsub.cpp:171-183 | adding up the sizes by channel and by client gives the same total, in any order |
| `Commands.PerformsKeepsStore` | src/commands/command_handler.cpp:46-80 | no command puts a key in both maps, leaves a deadline without a value or stores an empty list |
| `Commands.PerformsAddsNone` | src/commands/command_handler.cpp:333-367 | only SUBSCRIBE adds a subscription |
| `Commands.ReplyShown` | src/commands/command_handler.cpp:116-331 | the reply to a database operation, KEYS included in whatever order, is shown by the client as the handler wrote it, for every answer of bounded size with one-line elements |
| `Errors.WrongTypeExactly` | src/commands/command_handler.cpp:116-331 | on a live value of the other type, an operation replies WRONGTYPE if and only if it is LPUSH, RPUSH or LLEN; the others reply as if the key were missing; the live view stays the same |
| `Errors.WrongTypeInput` | src/database/database.cpp:214-339 | on one stored string, LPOP answers as on the empty store and LLEN answers WRONGTYPE |
| `Errors.ErrorKeepsStoreExactly` | src/commands/command_handler.cpp:87-114 | a command that replies with an error keeps the subscriptions, and keeps the live view at every later time if and only if it is not a SET with a bad EX option, or the key held that very string without a deadline |
| `Errors.SetErrorWrites` | src/commands/command_handler.cpp:87-114 | SET k v EX 0 on the empty store replies with an error and leaves k live |
| `Errors.UnknownWithCrlf` | src/commands/command_handler.cpp:78-80 | a command name that holds CRLF makes an error reply that the client does not show as written |
| `Simulation.PerformsAlike` | src/commands/command_handler.cpp:46-80 | whatever a command does in one world it does in every world with the same live view and subscriptions: the same reply unless it is DEL, and again the same live view and subscriptions |
| `Simulation.PurgeFirst` | src/database/database.cpp:27-437 | removing expired keys before an operation leaves the same three maps as removing them after it, for every operation the handler issues |
| `Simulation.DelRepliesExactly` | src/commands/command_handler.cpp:127-133 | after expired keys have been removed, DEL replies as before if and only if it names none of those keys |
| `Catalogue.MeansExactly` | src/commands/command_handler.cpp:46-80 | by name and arguments: GET, DEL, EXISTS, KEYS, DBSIZE, FLUSHDB, EXPIRE, TTL, PERSIST and the list commands, given the arguments they take, do to the live view what the operation of that name with those arguments does, change no subscription, and reply in the very words for its answer, and nothing else is possible |
| `Catalogue.MisusedExactly` | src/commands/command_handler.cpp:87-367 | with a wrong number of arguments they do nothing and say so by name |
| `Catalogue.UnreadableExactly` | src/commands/command_handler.cpp:167-331 | EXPIRE, LRANGE and LINDEX with an argument that is no 32-bit number do nothing and say so |
| `Catalogue.ExpireRefusedExactly` | src/commands/command_handler.cpp:167-185 | EXPIRE with a number that is not positive does nothing and says so |
| `Catalogue.SetExactly` | src/commands/command_handler.cpp:87-114 | SET stores the value; with EX in any spelling and a readable positive number it sets the deadline; with another number or none it replies with the error; in any other case it replies OK |
| `Catalogue.SetExpiresExactly` | src/commands/command_handler.cpp:87-114 | with EX n the value can be read for exactly n thousand million nanoseconds |
| `Catalogue.PingExactly` | src/commands/command_handler.cpp:82-85 | PING replies PONG or its first argument |
| `Catalogue.SubscribeExactly` | src/commands/command_handler.cpp:333-346 | SUBSCRIBE adds the named channels of the client and confirms each |
| `Catalogue.UnsubscribeExactly` | src/commands/command_handler.cpp:348-357 | UNSUBSCRIBE leaves the named channels, or all, and confirms each, or says that there is none |
| `Catalogue.PublishExactly` | src/commands/command_handler.cpp:359-367 | PUBLISH can lose subscribers of its channel only and counts those that are left |
| `Catalogue.SaveExactly` | src/commands/command_handler.cpp:203-210 | SAVE changes nothing and replies OK or that it failed |
| `Catalogue.InfoExactly` | src/commands/command_handler.cpp:530-557 | INFO changes nothing that can be seen and ends with the number of live keys |
| `Catalogue.ConfigExactly` | src/commands/command_handler.cpp:496-528 | CONFIG changes nothing and replies by its subcommand in any spelling |
| `Catalogue.NoSuchCommandExactly` | src/commands/command_handler.cpp:78-80 | any other name is unknown, and the reply quotes it |
| `Catalogue.EveryCommand` | src/commands/command_handler.cpp:46-80 | every command is of one of these kinds |
| `Catalogue.RefusedExactly` | src/commands/command_handler.cpp:24-29 | a subscriber that sends anything but SUBSCRIBE, UNSUBSCRIBE or PING is refused in these words and nothing happens |
| `Catalogue.MultiExactly` | src/commands/command_handler.cpp:370-378 | MULTI opens a transaction with an empty queue and the watches as they are, or replies that calls can not be nested |
| `Catalogue.DiscardExactly` | src/commands/command_handler.cpp:418-428 | DISCARD closes it with the watches as they are, or replies that there is none |
| `Catalogue.WatchNamedExactly` | src/commands/command_handler.cpp:430-466 | WATCH appends keys and records, or replies with one of two errors |
| `Catalogue.ExecNamedExactly` | src/commands/command_handler.cpp:380-416 | EXEC runs the queue or replies nothing, and forgets queue and watches, or replies that there is no transaction |
| `Catalogue.QueuedExactly` | src/commands/command_handler.cpp:37-43 | any other command is queued inside a transaction and performed outside |
| `Catalogue.CheckedExactly` | src/commands/command_handler.cpp:468-492 | the check of EXEC reads a key if and only if every snapshot before one of that key is as recorded |
| `Handler.CommandHandler.ExecuteSingle` | src/commands/command_handler.cpp:46-80 | routes a command, performs its database operations in order and gives the reply of their answers |
| `Handler.CommandHandler.HandleSet` | src/commands/command_handler.cpp:87-114 | stores the value before the option is looked at, and sets the deadline after it, each with the reply of that path |
| `Handler.CommandHandler.HandleKeys` | src/commands/command_handler.cpp:143-154 | the live keys in some order, numbered and quoted |
| `Handler.CommandHandler.HandleLRange` | src/commands/command_handler.cpp:270-295 | the slice, numbered and quoted |
| `Handler.CommandHandler.HandleUnsubscribe` | src/commands/command_handler.cpp:348-357 | one confirmation line for each channel left |
| `Handler.CommandHandler.TakeSnapshot` | src/commands/command_handler.cpp:438-463 | records what a key looks like: its string, or the length of its list, 0 for no key |
| `Handler.CommandHandler.HandleWatch` | src/commands/command_handler.cpp:430-466 | appends a key and a snapshot for each argument; refused in MULTI |
| `Handler.CommandHandler.IsModified` | src/commands/command_handler.cpp:469-489 | compares one snapshot with the key as it is, for any snapshot |
| `Handler.CommandHandler.WatchedKeysModified` | src/commands/command_handler.cpp:468-492 | true if and only if some snapshot differs; keys are read up to the first difference |
| `Handler.CommandHandler.HandleExec` | src/commands/command_handler.cpp:380-416 | runs the queue in order if nothing watched has changed, else answers nil; either way the session is idle |
| `Handler.CommandHandler.RunQueue` | src/commands/command_handler.cpp:397-405 | each queued command acts on the world the one before it left |
| `Handler.CommandHandler.Execute` | src/commands/command_handler.cpp:22-44 | subscription mode first, then the steering commands, then the queue; the session stays well-formed |
| `Transactions.StepKeeps` | src/commands/command_handler.cpp:22-44 | every step keeps the queue empty outside MULTI and free of steering commands, watched keys and snapshots in agreement, and MULTI and subscription mode apart |
| `Transactions.DiffersExactly` | src/commands/command_handler.cpp:468-492 | the check is the comparison with what WATCH would record now, for every snapshot that WATCH can record; none has existed = false |
| `Sessions.RunStaysSound` | src/commands/command_handler.cpp:22-44 | the same in every reachable state, with other clients at work between the steps |
| `Sessions.OthersInterfere` | src/commands/command_handler.cpp:22-80 | every step of another client, whatever its session, keeps the store invariant and adds no subscription of this client, which is all that a run assumes of others |
| `Sessions.SweepInterferes` | src/database/database.cpp:474-493 | so does every sweep |
| `Sessions.DropInterferes` | src/pubsub/pubsub.cpp:148-169 | so does every disconnection |
| `Sessions.SnapshotsAreSightings` | src/commands/command_handler.cpp:430-466 | in every run the snapshots are what the WATCH commands saw since the last EXEC |
| `Sessions.WatchExactly` | src/commands/command_handler.cpp:380-395 | in every run, EXEC runs the queue if and only if every watched key looks as it did to its WATCH; otherwise the live view and the subscriptions are unchanged; the session is idle afterwards |
| `Sessions.MissingSeenExactly` | src/commands/command_handler.cpp:451-455 | a missing key, recorded as a list of length 0, looks like nothing else, so its creation is noticed |
| `Sessions.ChangeSeenExactly` | src/commands/command_handler.cpp:468-492 | two states of a key look alike if and only if the values are equal or are two lists of one length; deadlines are not compared |
| `Sessions.QueueCollects` | src/commands/command_handler.cpp:37-41 | inside MULTI the commands of the client are collected in order and change nothing |
| `Sessions.DiscardForgets` | src/commands/command_handler.cpp:418-428 | after MULTI, any commands and DISCARD the session is as before and the client has changed nothing |
| `Sessions.SameLengthMissed` | src/commands/command_handler.cpp:468-492 | a run in which another client replaces a watched list by one of the same length and EXEC still runs the queue |
| `Execution.ExecIsDirect` | src/commands/command_handler.cpp:380-416 | whenever EXEC runs its queue, there is a run of the same commands from the world before EXEC, without the removals of the watch check: same subscriptions, same live view at every later time, same replies apart from DEL, and each count of DEL is the same if and only if it names no expired key that the check removed; that run is the one the commands sent directly at that time take if and only if none is sent while subscribed that a subscriber may not send |
| `Execution.DirectIsExec` | src/commands/command_handler.cpp:380-416 | conversely, commands sent directly, none of them refused, are matched in this way by EXEC of the same commands |
| `Execution.DirectExactly` | src/commands/command_handler.cpp:22-44 | commands performed one after another are commands sent directly if and only if each of them that finds the client subscribed is SUBSCRIBE, UNSUBSCRIBE or PING |
| `Execution.NeverRefusal` | src/commands/command_handler.cpp:24-29 | no command that subscribers may not send performs with the reply of a refusal |
| `Execution.DelCountsInExec` | src/commands/command_handler.cpp:380-395 | a watched key that has expired and is still stored: DEL counts 0 in EXEC and 1 sent directly |
| `Execution.SubscribeInput` | src/commands/command_handler.cpp:24-29 | SUBSCRIBE then GET in a queue runs as it would not when sent directly; SUBSCRIBE then PING runs alike |
| `Connections.ConnectionIgnoresTransactions` | src/networking/server.cpp:277-303 | over connections, each command to a new handler: in any stream of the commands of any clients, with sweeps and disconnections in between, MULTI, WATCH, EXEC and DISCARD have no effect (EXEC and DISCARD find no MULTI or are refused), and the other commands go through a course of their own, with whatever sweeps, with the same replies apart from DEL, the same subscriptions and the same live view |
| `Courses.SameCourse` | src/commands/command_handler.cpp:22-80 | two streams of the same commands of any clients at the same times, MULTI, EXEC, DISCARD and WATCH among them, with the same disconnections and any sweeps in between, from worlds with the same live view: the same sessions throughout, the same replies apart from the counts of DEL, sent alone or run by EXEC, and in the end the same live view and subscriptions: expiry cannot be observed through the handler |
| `Courses.StepAlike` | src/commands/command_handler.cpp:22-80 | whatever any command does in one world and session, steering commands included, it does in every world with the same live view and subscriptions: the same session after it, the same live view and subscriptions, and the same reply but for counts of DEL |
| `Courses.SameRunExactly` | src/commands/command_handler.cpp:397-405 | if no DEL is queued, the two replies of EXEC are the same text |
| `Courses.CourseIsRun` | src/commands/command_handler.cpp:22-44 | to each client that stays, such a stream of the events of all clients is a run of its session, so that all that is proved of runs holds in it |
| `Connections.ServedIsCourse` | src/networking/server.cpp:277-303 | over connections, a steering command does no more than remove expired keys and nobody gets a session |
| `Sessions.Serve` | src/commands/command_handler.cpp:22-44 | the handler object, given commands one after another, goes through such a run |

## Left out

- Sockets, `select`, accepting connections, non-blocking mode, and reads that return nothing or an error: operating system plumbing around the byte buffer.
- Threads, mutexes and the condition variable: every operation runs under one lock, so each is one step and the sweep is another.
- The file system: temporary file, removal, renaming and stream failures of a save; a save is modelled as the bytes it produces and a load as the bytes it is given, and a missing file is not modelled.
- The length-prefixed protocol of earlier versions, the configuration file, logging, the command-line loop and both main programs: easy members only.
- Sizes of lists above 2^31-1, which the program casts to `int`, 64-bit overflow in time arithmetic, and failing allocations.
- Several clock readings within one operation or one handler call: the model reads the clock once.
- Snapshot texts are byte strings: characters are below 256, and sizes and counts are below 2^32.
- ListReply.ShapeKeptExactly: asks that the last line does not end in a newline, as no reply of the handler does.
- Server.Connection.ProcessClient: the password check with AUTH is not modelled, and the reply bytes are not part of its outcome; `Talk` adds them.
- Handler.CommandHandler.ExecuteSingle: the success of SAVE and the head of the INFO text are arbitrary.

# A verified model of netvend

netvend is a small server that keeps accounts ("pockets") and files for agents. Agents send signed
batches of commands over TCP; the server runs them against a PostgreSQL database and charges the
pockets for the files they keep, from a second thread. This project models its four connected parts
and proves what they keep, over all inputs, all runs and all interleavings.

1. **Base58 and Base58Check** (`Positional`, `Base58`, `Base58Check`). The two in-place carry loops run
   on arrays and are proved against the value of the number they hold; the fixed-ratio buffer sizes
   are proved large enough for every length, so `carry == 0` always holds. `Decode` is given a
   definition without loops, and encoding and decoding are proved inverse, leading zeros included.
2. **The byte formats** (`Bits`, `Integers`, `Float754`, `Pack`, `Formats`, `Wire`, `Commands`,
   `Results`, `Framing`, `Layouts`).
   `pack`/`unpack` as interpreters of format strings, `pack754`/`unpack754` over exact reals, and on
   top of them every command, result, error, batch, packet and response, written into a growing
   buffer and read back with a moving cursor.
3. **The ledger** (`Ledger`, `Sums`, `Fees`, `Database`). The three tables as a value, each transaction
   as a function on it, and a `Database` class whose methods do what the C++ functions do, statement
   by statement, and are proved to have exactly that effect; `Effects` says what each transaction and
   each command does by what can be observed afterwards, and exactly why it is refused.
4. **The server** (`Service`, `Server`, `Machine`, `Money`, `Safety`, `Schedule`, `Stops`, `Access`,
   `Reads`, `Serial`, `Progress`, `EndToEnd`, `Counterexamples`). `Machine` is a state machine in which the
   transactions of the io thread (connections, handshakes, batches) and of the fee thread (snapshot,
   apply) interleave in any way, and in which a client may send any bytes at all. `Money`, `Safety`,
   `Schedule`, `Stops` and `Access` prove what every run keeps and when it goes wrong, `Reads` that files read
   as last written, `Serial`
   that every interleaving is a run in which commands are atomic, `Progress` that every request ends,
   and `EndToEnd` follows a batch from the client's commands to the client's results.
   `Counterexamples` holds the runs in which something goes wrong.

## Reading the model

- A function of `util/database.cpp` either returns, throws a `NetvendCommandException` (`Throw`, which
  the batch loop turns into an error result) or throws something else (`Escapes`). Nothing below `main`
  catches the latter, so it stops the server (`Stopped`), as a failed assertion and the use of the null
  pointer returned for an unknown packet do. Undefined behaviour of a read past the end of a buffer
  appears as a failed read.
- Ids are 32-bit unsigned on the wire and `int` in the tables; a number that its column, or a difference
  computed from it, cannot hold is an SQL error and escapes.
- A `pqxx::work` is one atomic step. Serial numbers are drawn outside it: an insert that fails still
  uses one up.
- `collected` and `lastFee` in `Machine.Sys` are records kept for the proofs only.

## Where the code does something other than it seems meant to

The model follows the code; lemmas say when the difference shows.

- `balance - amount < 0` compares unsigned numbers and never holds (util/database.cpp:203-204): lack of
  credit is reported as a server logic error (`Ledger.CreditReason`, and `Ledger.CreditReasonExample`
  for a transfer of 11 from a pocket with 10).
- `unpack` does not advance past a negative `'c'` (util/pack.cpp:389-390): a format is faithful exactly when
  no item follows a `'c'` (`Pack.FormatIff`, `Counterexamples.NegativeCharReadTwice`).
- Some range constants are off: `PACK_SH_MAX` does not fit its type, and the assertion on `'h'` admits
  only one value (`Pack.RangeConstants`).
- A significand that rounds up to the next power of two is ORed onto the exponent, and the carry is
  lost when that bit is already set (util/pack.cpp:26-32): `Float754.PackAccuracy` says exactly when,
  and `Pack.CarryLostInFormat` shows 1.9999 coming back as 1.
- Nothing checks that an exponent fits its field; such a real never comes back (`Pack.FloatSurvivesIff`,
  `Counterexamples.ExponentTooBig`).
- Sizes of names, texts and data are stored in fields narrower than the strings can be. The reader gets
  what `Sent` describes, the value itself exactly when it fits (`Commands.WrittenIff`, `Results.RoundTrip`,
  `Counterexamples.LongNameLost`).
- The response size is truncated to 16 bits (netvend/response.cpp:66): the client reads the results
  exactly when they are below 65536 bytes (`Framing.ResponseIff`); two reads of one file are enough to
  lose them (`Counterexamples.OversizeConversation`).
- The packet writer's assertion admits 65535 bytes of commands, the constructor's does not
  (netvend/packet.cpp:83,115, `Framing.PacketIff`, `Counterexamples.LongestPacketRefused`).
- The outcome of verifying a batch's signature is ignored (server.cpp:231-234). A request therefore acts
  as whatever agent its packet names, and "the owner's command" below means a command of a packet that
  names the owner.
- A fee pass is two transactions, so money can leave a pocket between snapshot and charge and its
  balance can become negative: `Schedule.NeverNegativeIffWithinMargins` says exactly for which
  schedules, and `Counterexamples.RaceGoesNegative` is one. A transfer from such a pocket then stops
  the server (`Counterexamples.NegativeBalanceStops`, `Stops.StopsIff`).

## Model

| member | source | states |
|---|---|---|
| Base58.AlphabetTable | util/b58check.cpp:9-10 | the digit-to-character table is the literal of the source |
| Base58.AlphabetInjective | util/b58check.cpp:9-10 | no character stands for two digits |
| Base58.SpaceTable | util/b58check.cpp:15 | white space is exactly the six characters of C's `isspace` |
| Base58.RebaseInverse | util/b58check.cpp:12-94 | converting a digit string between any two bases and back restores it, its leading zeros included |
| Base58.DecodeIff | util/b58check.cpp:12-94 | a string decodes to v exactly when, stripped of surrounding space, it is the encoding of v |
| Base58.DecodeEncode | util/b58check.cpp:12-94 | every byte string, leading zero bytes included, comes back from its encoding |
| Base58.DecodeInjective | util/b58check.cpp:12-56 | two strings with the same decoding differ only in surrounding space |
| Base58.DecodeAccepts | util/b58check.cpp:14-45 | exactly the strings "space, alphabet characters, space" are accepted |
| Base58.Certificate58 | util/b58check.cpp:67 | 256^8 is at most 58^11, the ratio behind 138/100 |
| Base58.EncodeFits | util/b58check.cpp:67 | `n * 138 / 100 + 1` base-58 cells hold every number of n bytes, for all n |
| Base58.DecodeFits | util/b58check.cpp:24 | `n * 733 / 1000 + 1` bytes hold every number of n base-58 digits, for all n |
| Base58.CarryBelow | util/b58check.cpp:33-37 | inside a pass the carry stays below the multiplier |
| Base58.Cell | util/b58check.cpp:34-36 | one cell of the pass loses nothing: cells so far plus carry weigh old cells times the multiplier plus the digit |
| Base58.MultiplyAdd | util/b58check.cpp:71-79 | the in-place pass maps the value V to V * factor + digit, with cells below the radix and carry below the factor |
| Base58.NoCarry | util/b58check.cpp:38 | when the result fits the cells nothing is carried out of them |
| Base58.Append | util/b58check.cpp:70-82 | one more input digit leaves the cells holding exactly the digits read so far; the asserted carry is zero |
| Base58.ReadBytes | util/b58check.cpp:66-82 | the base-58 cells hold the value of the bytes |
| Base58.EncodeBase58 | util/b58check.cpp:58-94 | the encoder returns the specified code: a '1' per leading zero byte, then the base-58 digits of the value |
| Base58.Lookup | util/b58check.cpp:28-32 | `strchr` finds a character exactly when it is in the alphabet, at its digit |
| Base58.ReadDigits | util/b58check.cpp:23-40 | the loop ends at a space or the end with the value of the digits, or at the first foreign character |
| Base58.DecodeBase58 | util/b58check.cpp:12-56 | the decoder accepts exactly the specified strings and stores exactly their meaning; otherwise the output is untouched |
| Base58Check.EncodeBase58Check | util/b58check.cpp:106-118 | payload and four checksum bytes, encoded |
| Base58Check.DecodeBase58Check | util/b58check.cpp:120-139 | accepts exactly the texts whose bytes end in the checksum of the rest, returns the rest, and clears the output on failure |
| Base58Check.DecodeBase58CheckString | util/b58check.cpp:141-144 | the same for a `std::string`, which is cut at its first zero character |
| Base58Check.DecodeCheckIff | util/b58check.cpp:120-139 | decoding succeeds with v exactly when the Base58 bytes are v followed by its checksum |
| Base58Check.CheckedRoundTrip | util/b58check.cpp:106-139 | a text decodes to v exactly when it is, up to space, the checked encoding of v; in particular every v comes back |
| Base58Check.AddressDecodes | util/crypto.cpp:5-15 | an address decodes to 61 and the hash of its key |
| Base58Check.AddressIs34 | util/crypto.cpp:5-15 | every version-61 address of a 20-byte hash is exactly 34 alphabet characters, none of them zero |
| Float754.NormalUnique | util/pack.cpp:15-23 | only one exponent puts the significand of a number in [1, 2) |
| Float754.RunNormalize | util/pack.cpp:19-23 | both normalisation loops end, with the significand in [1, 2) and the number unchanged |
| Float754.Shift | util/pack.cpp:53-56 | the two exponent loops multiply by that power of two |
| Bits.OrBit | util/pack.cpp:32 | the OR used here sets a bit exactly when either side has it |
| Bits.OrDisjoint | util/pack.cpp:32 | OR of fields that do not overlap is their sum |
| Bits.OrOne | util/pack.cpp:32 | OR with 1 sets the lowest bit and carries nothing |
| Float754.RunPack754 | util/pack.cpp:6-33 | for every real, whether or not its exponent fits, the code returns sign, exponent and significand shifted to their places and ORed |
| Float754.OrIsFields | util/pack.cpp:32 | from the bitwise OR: fields that fit lie side by side; a significand that rounded up sets the lowest exponent bit, already set or not |
| Float754.PatternInRange | util/pack.cpp:25-32 | when the exponent fits its field the ORed pattern is that of the fields |
| Float754.RunUnpack754 | util/pack.cpp:38-62 | the code computes the specified real for every pattern below 2^bits |
| Float754.PackUnpack | util/pack.cpp:6-62 | packing the unpacked pattern gives it back, for every pattern |
| Float754.UnpackPack | util/pack.cpp:6-62 | a real in range survives exactly when it is representable (zero; a whole significand; not the one whose pattern is all zeros) |
| Float754.PackAccuracy | util/pack.cpp:25-32 | any other real in range is less than one unit in the last place off, exactly when the OR loses no carry and the pattern is not that of zero |
| Pack.FloatSurvivesIff | util/pack.cpp:6-62 | over all reals, what a format stores reads back as the same real exactly when it is in range and representable |
| Pack.CarryLostInFormat | util/pack.cpp:293-299 | a failing input: 'f' stores 1.9999 so that it reads back as 1 |
| Integers.UnsignedSurvives | util/pack.cpp:67-91 | big-endian bytes of a number in range read back as that number |
| Integers.SignedSurvives | util/pack.cpp:95-167 | the two's-complement re-signing recovers every signed number in range |
| Pack.ItemSurvives | util/pack.cpp:348-489 | each item's value comes back from any longer buffer; only after a negative 'c' does the pointer not move |
| Pack.RoundTrip | util/pack.cpp:195-489 | for every format and fitting argument list, from any longer buffer, the values come back and both byte counts agree |
| Pack.FormatIff | util/pack.cpp:386-391 | a format carries all its fitting argument lists exactly when no item follows a 'c' |
| Pack.RangeConstants | util/pack.h:26-42 | which in-range numbers the assertions refuse, and which out-of-range ones they admit |
| Formats.IntegerTable | util/pack.h:99-110 | each integer character stores the low bytes of its width, and is read back exactly for the numbers it is for |
| Formats.FloatTable | util/pack.h:99-110 | 'f', 'd' and 'g' are the 16-, 32- and 64-bit patterns: those of 1, -1 and the next number above 1 |
| Bits.BitMod | util/pack.cpp:67-91 | the low bits of a number are its own |
| Formats.FloatBitsAre | util/pack.cpp:25-32 | for every real, which bits are stored: sign at the top, biased exponent above the fraction whether or not it fits, rounded fraction |
| Formats.LimitIsDecimal | util/pack.cpp:477-483 | digits before a character are read as the decimal number they spell |
| Formats.LimitedString | util/pack.cpp:465-475 | with a limit n an 's' gives back a string of at most n bytes whole and the first n - 1 of a longer one, with the size of the whole |
| Pack.RunPack | util/pack.cpp:195-332 | the interpreter stores exactly the specified bytes at its place, leaves the rest, reports their number, and stops exactly at a failed assertion |
| Pack.RunUnpack | util/pack.cpp:348-489 | the interpreter returns exactly the specified values and size |
| Wire.TakeIff | util/pack.cpp:348-489 | unsigned fields are read from a buffer exactly when it begins with what `pack` writes for them |
| Wire.PutIsPack | util/pack.cpp:195-332 | the fields the records use pass every assertion of `pack` and are written as specified |
| Wire.TakeIsUnpack | util/pack.cpp:348-489 | reading such fields is `unpack` with their format |
| Wire.TakeCountedIff | netvend/commands.cpp:188-222 | a length-prefixed block is read exactly where one was written |
| Wire.Pointer.Read | netvend/commands.cpp:129-136 | a read returns the fields at the cursor and advances it by exactly their size |
| Wire.PadAddressIff | netvend/commands.cpp:456-480 | an address read from its zero-padded field is itself exactly when it fits and has no zero byte |
| Commands.DecodeIff | netvend/commands.cpp:9-45 | at any place in any buffer a command is read exactly where that command was written, and the cursor ends right after it |
| Commands.WrittenIff | netvend/commands.cpp:188-222 | of every command the writer accepts the reader gets what was sent: itself exactly when a file name fits its size byte |
| Commands.WriteToVch | netvend/commands.cpp:97-309 | appends tag and fields of any command the assertions admit, a name cut to its size byte |
| Commands.ConsumeFromBuf | netvend/commands.cpp:19-45 | reads the command at the cursor, or fails on an unknown tag or missing bytes |
| Commands.DecodeBatchIff | netvend/commands.cpp:56-84 | a batch of up to 255 commands is read exactly where it was written, cursor right after |
| Commands.BatchWrittenIff | netvend/commands.cpp:56-84 | of every batch that can be written the reader gets what was sent: itself exactly when every name fits |
| Commands.DecodesIff | netvend/commands.cpp:74-84 | exactly the buffers that begin with a valid batch's encoding decode |
| Commands.BatchPrefixFree | netvend/commands.cpp:56-84 | no batch's encoding is another's, nor the beginning of another's |
| Commands.WriteBatchToVch | netvend/commands.cpp:56-72 | the writing loop appends the count and every command in order |
| Commands.ConsumeBatchFromBuf | netvend/commands.cpp:74-84 | the reading loop returns exactly the batch at the cursor |
| Results.RoundTrip | netvend/commands.cpp:317-359 | of every result, read with the type of the command it answers, what was sent comes back from any longer buffer: itself exactly when texts, data and address fit |
| Results.ErrorRoundTrip | netvend/commands.cpp:587-846 | every error comes back with its type and amounts, and its text exactly when it fits a size byte |
| Results.BatchRoundTrip | netvend/commands.cpp:380-411 | of results that answer the commands in order, however few, the reader with that batch gets what was sent: themselves exactly when each fits |
| Results.DecodeMore | netvend/commands.cpp:327-359 | what is read does not depend on what follows |
| Results.BatchCutShort | netvend/commands.cpp:399-411 | no proper prefix of a result batch decodes |
| Layouts.BigEndianAt | util/pack.cpp:67-91 | byte i of a w-byte number is its digit of weight 256^(w-1-i) |
| Layouts.CommandBytes | netvend/commands.cpp:97-309 | the bytes of every command, type code and fields in order |
| Layouts.BatchBytes | netvend/commands.cpp:56-72 | a batch is its count and the commands one after the other |
| Layouts.CommandUnread | netvend/commands.cpp:19-45 | bytes are no command exactly for an unknown type code or an early end, each reported as such |
| Layouts.ErrorBytes | netvend/commands.cpp:593-846 | the bytes of every error |
| Layouts.ResultBytes | netvend/commands.cpp:317-565 | the bytes of every result: error code, cost, fields |
| Layouts.ResultBatchBytes | netvend/commands.cpp:380-397 | a result batch is its count and the results one after the other |
| Layouts.ErrorRead | netvend/commands.cpp:606-629 | what any bytes are read as, for each error code |
| Layouts.ResultRead | netvend/commands.cpp:327-359 | what any bytes are read as, for each command type, failures included |
| Results.WriteResult | netvend/commands.cpp:317-325 | appends header and fields of any result the assertions admit, blocks cut to their size fields |
| Results.ConsumeResult | netvend/commands.cpp:327-359 | reads a result as the given command type says, or an error of any type |
| Results.ResultBatch.WriteToVch | netvend/commands.cpp:380-397 | appends the count and every result in order |
| Results.ResultBatch.ConsumeFromBuf | netvend/commands.cpp:399-411 | result i is read with the type of command i of the batch sent; fails when results outnumber commands |
| Framing.ResponseIff | netvend/response.cpp:59-98 | the client reads back the server's results exactly when each fits its fields and their encoding is below 65536 bytes |
| Framing.WriteResponse | netvend/response.cpp:59-73 | appends completion byte, size and results to the stream |
| Framing.ReadResponse | netvend/response.cpp:75-98 | returns the results the stream holds for the batch sent and consumes exactly the response |
| Framing.HandshakeRoundTrip | netvend/response.cpp:16-45 | a handshake response comes back from any longer stream |
| Framing.WriteHandshakeResponse | netvend/response.cpp:33-45 | appends flag and pocket id |
| Framing.ReadHandshakeResponse | netvend/response.cpp:16-31 | reads flag and pocket id, and consumes exactly them |
| Layouts.HandshakeResponseBytes | netvend/response.cpp:33-45 | the bytes of a handshake's answer |
| Layouts.HandshakeResponseRead | netvend/response.cpp:16-31 | what any bytes are read as: any non-zero flag means new |
| Layouts.ResponseBytes | netvend/response.cpp:59-73 | the bytes of a response: completion code 2, size, results |
| Layouts.ResponseRead | netvend/response.cpp:75-98 | what any bytes are read as: results from exactly as many bytes as the size says |
| Framing.PacketIff | netvend/packet.cpp:10-132 | a packet comes back exactly when its address has no zero byte and its data is below 65535 bytes; a handshake always |
| Framing.WritePacket | netvend/packet.cpp:25-132 | appends tag, zero-padded address, length, data and signature |
| Framing.ReadPacket | netvend/packet.cpp:10-23 | reads the packet the tag announces and consumes exactly it; an unknown tag yields the null packet |
| Framing.ReadBatchPacket | netvend/packet.cpp:86-110 | reads address up to its first zero byte, length, data and signature |
| Layouts.PacketBytes | netvend/packet.cpp:25-132 | the bytes and the size of every packet |
| Layouts.PacketRead | netvend/packet.cpp:10-110 | what any bytes of a connection are read as, unknown tags and short reads included |
| Ledger.TransferAllOrNothing | util/database.cpp:180-225 | a transfer commits exactly when source is owned, amount covered, destination present and numbers in range; then exactly the amount moves, else no row changes |
| Ledger.TransferReasons | util/database.cpp:187-222 | each answer to a transfer has its own cause: for every error and escaping exception, exactly when it is given |
| Ledger.CreditReason | util/database.cpp:203-211 | lack of credit is never reported as such; the answer is the intended one exactly when credit is not what lacks |
| Ledger.CreditReasonExample | util/database.cpp:203-211 | a failing input: 11 from a pocket with 10 is refused as a server logic error |
| Ledger.ColumnLimits | tables.sql:8-26 | ids are below 2^31 and balances within 64-bit two's complement |
| Ledger.DecimalSpells | util/database.cpp:139 | an id is written in decimal: digits only, no leading zero, and that value |
| Ledger.TextsName | util/database.cpp:136-212 | each error text has the words of its kind and spells the id of its row |
| Ledger.PocketTargetInjective | util/database.cpp:139 | so the target of an error identifies the pocket |
| Ledger.FileTargetInjective | util/database.cpp:254 | and the file |
| Effects.PocketCheckReasons | util/database.cpp:133-152 | a check of a pocket passes exactly for its owner; a missing pocket, another's and an id out of range are told apart, for exactly those causes |
| Effects.FileCheckReasons | util/database.cpp:248-268 | the same for files |
| Effects.InsertAgentReasons | util/database.cpp:66-80 | an agent is recorded with its key and pocket exactly when it is new and the pocket exists; each refusal has its own cause |
| Effects.InsertPocketReasons | util/database.cpp:98-131 | a new id is a new key and the only one; its pocket is empty, with that owner and address; each refusal has its own cause |
| Effects.UpdatePocketOwnerReasons | util/database.cpp:154-165 | the owner of exactly that pocket is set exactly when pocket and agent exist |
| Effects.DepositStored | util/database.cpp:167-178 | the address is stored in exactly that pocket exactly when it is the agent's |
| Effects.InsertFileReasons | util/database.cpp:229-246 | a new id is a new key and the only one; its file has that owner, name and pocket, reads as empty, and its name was free and is taken; each refusal has its own cause |
| Effects.NameIsTaken | util/database.cpp:236-238 | a second file of that owner and name is refused |
| Effects.UpdateIsRead | util/database.cpp:270-301 | what an update stores is what is read afterwards; every other file reads as before; a failed update changes nothing |
| Effects.ReadReasons | util/database.cpp:286-301 | a read answers the stored data, empty if none, or exactly why not |
| Effects.CreatePocketAnswers | server.cpp:64-70 | the id answered is that of the agent's new, empty pocket |
| Effects.DepositAddressAnswers | server.cpp:72-86 | the address answered is the one stored; each error and exception has its own cause |
| Effects.TransferAnswers | server.cpp:88-100 | the client gets exactly the transaction's answer |
| Effects.CreateFileAnswers | server.cpp:102-116 | the id answered is that of the new file; each error and exception has its own cause |
| Effects.UpdateFileAnswers | server.cpp:118-133 | an update answered as done is read back by every agent and leaves other files alone; each error and exception has its own cause |
| Effects.ReadFileAnswers | server.cpp:135-152 | a read changes nothing and answers the stored data to any agent, or exactly why not |
| Ledger.TextsFit | util/database.cpp:136-212 | every error text fits the one-byte length of its encoding |
| Ledger.InsertAgentKeeps | util/database.cpp:66-80 | inserting an agent keeps the tables consistent and every row |
| Ledger.InsertPocketKeeps | util/database.cpp:125-131 | so does inserting a pocket, committed or not |
| Ledger.InsertPocketWithAddressKeeps | util/database.cpp:98-123 | so does inserting one with a deposit address |
| Ledger.UpdatePocketOwnerKeeps | util/database.cpp:154-165 | so does setting an owner that was not set |
| Ledger.TransferKeeps | util/database.cpp:180-225 | so does a transfer |
| Ledger.InsertFileKeeps | util/database.cpp:229-246 | so does inserting a file paid by a pocket of its owner: keys, unique names and agreement of owners |
| Ledger.UpdateFileKeeps | util/database.cpp:270-284 | so does updating a file |
| Ledger.ApplyFeesKeeps | util/database.cpp:344-357 | so does applying any bill |
| Database.Database.InsertAgent | util/database.cpp:66-80 | new state and outcome are those of the transaction, for a duplicate, a missing pocket and success |
| Database.Database.InsertPocket | util/database.cpp:125-131 | the same; a fresh serial id, used up even when the insert fails |
| Database.Database.InsertPocketWithAddress | util/database.cpp:98-123 | the same for all three statements: with a deposit address, with an owner, without owner |
| Database.Database.VerifyPocketOwner | util/database.cpp:133-152 | succeeds exactly for the owner; tells a missing pocket from another's |
| Database.Database.UpdatePocketOwner | util/database.cpp:154-165 | sets the owner of exactly that row, or reports it missing |
| Database.Database.UpdatePocketDepositAddress | util/database.cpp:167-178 | sets the address of exactly that row of that owner, or reports it missing |
| Database.Database.PocketTransfer | util/database.cpp:180-225 | debit, diagnosis, credit, commit on a working copy: new state and outcome are those of the transaction |
| Database.Database.InsertFile | util/database.cpp:229-246 | a fresh file without data, or the error for a taken name |
| Database.Database.VerifyFileOwner | util/database.cpp:248-268 | succeeds exactly for the owner; tells a missing file from another's |
| Database.Database.UpdateFileByID | util/database.cpp:270-284 | replaces the data of exactly that file, or reports it missing |
| Database.Database.ReadFileByID | util/database.cpp:286-301 | the data of that file, empty if never written, or the error |
| Database.Database.FetchFees | util/database.cpp:18-30 | one row per pocket that pays for files, in any order, with its fee and whether it would go below zero |
| Database.RowsApply | util/database.cpp:312-357 | however the rows are ordered, the two statements built from them do exactly what the bill says |
| Database.RowOrder | util/database.cpp:315-357 | any two answers to the grouped query have the same effect |
| Database.Database.ApplyRows | util/database.cpp:315-357 | the loop and the transaction delete exactly the bankrupt pockets' files and charge exactly the others |
| Database.Database.ChargeFileUpkeepFees | util/database.cpp:303-358 | with nothing in between, the pass is the atomic pass |
| Fees.TotalIsSum | util/database.cpp:24 | the query's count and byte total is the sum of the costs of the pocket's files |
| Fees.AtomicPassSplits | util/database.cpp:303-358 | each pocket with files either pays exactly their cost once and keeps them all, or keeps its balance and loses them all; nothing else changes and no balance becomes negative |
| Fees.DebitIsKeptCost | util/database.cpp:303-358 | the total debited is the total cost of the surviving files |
| Service.LoopIsFold | server.cpp:243-261 | for any handlers, the batch leaves the fold of its first k commands, k the number of results; result i is command i's answer; fewer results than commands only after a fatal error or an escaped exception |
| Service.BatchIsFold | server.cpp:241-263 | with the server's handlers moreover every result answers its command and all before the last are successes |
| Server.Server.ProcessHandshakePacket | server.cpp:29-62 | database and answer are those of the four transactions in order |
| Server.HandshakeOutcome | server.cpp:29-62 | a known agent's handshake changes nothing; a new agent gets its key recorded and a fresh empty pocket of its own, unless pocket ids are spent |
| Server.Server.ProcessCreatePocket | server.cpp:64-70 | database and result are those of the command |
| Server.Server.ProcessRequestPocketDepositAddress | server.cpp:72-86 | the same: ownership check, then the update |
| Server.Server.ProcessPocketTransfer | server.cpp:88-100 | the same |
| Server.Server.ProcessCreateFile | server.cpp:102-116 | the same: ownership check, then the insert |
| Server.Server.ProcessUpdateFileByID | server.cpp:118-133 | the same: ownership check, then the update |
| Server.Server.ProcessReadFileByID | server.cpp:135-152 | the same, for any agent |
| Server.Server.ProcessCommand | server.cpp:154-219 | dispatches every command to its handler |
| Server.Server.ProcessCommands | server.cpp:241-261 | the loop with its break on fatal errors computes exactly the serial batch: database, results and escaped exception |
| Server.Server.ProcessCommandBatchPacket | server.cpp:221-264 | an unknown agent or an undecodable batch escapes; otherwise the decoded batch is run |
| Machine.StepKeeps | server.cpp:29-346 | every transaction of either thread, whatever bytes clients send, keeps foreign keys, unique names, owners of all pockets, agreement of file and pocket owners, what passed ownership checks and the handshake under way rely on, and every owner once set |
| Machine.RunKeeps | server.cpp:29-346 | these hold at every transaction boundary of every run |
| Machine.StoppedCanRestart | server.cpp:396-408 | the tables a stopped server leaves are ones a new server can start from, so all results on runs hold after a restart |
| Machine.CheckGrants | util/database.cpp:133-152 | an ownership check either grants what it says or gives an error that fits the wire |
| Machine.HandshakeEscapes | server.cpp:29-62 | in every reachable state only spent pocket ids end a handshake with an exception |
| Money.ApplyKeeps | util/database.cpp:344-357 | applying a bill moves each fee from balance to collected, whatever happened since the snapshot |
| Money.StepFunded | server.cpp:29-293 | every step of either thread keeps the total of balances and collected fees, and every bound |
| Money.RunFunded | server.cpp:29-293 | over every interleaving, balances plus collected fees add up to what there was |
| Money.StepRecords | util/database.cpp:344-357 | collected fees grow by exactly what balances lose in a charge, and nothing else changes them |
| Money.WealthBounds | util/database.cpp:303-358 | balance plus fees collected from the pocket is between zero and the total, and no balance is below minus the last fee taken from it |
| Money.BalancesInColumn | tables.sql:8-14 | with at most 2^63 - 1 in all, no balance leaves the bigint column in any run, by credits or by fees |
| Money.NoOverflow | util/database.cpp:184-216 | with at most 2^63 - 1 in all, no credit overflows in any run: a transfer succeeds exactly when source is owned, can pay, and destination exists |
| Safety.RunExtends | util/database.cpp:98-178 | a pocket's owner never changes once set, over all runs |
| Safety.WriteAfterCheck | server.cpp:72-133 | what a write meets one transaction after its check: the pocket is still the agent's; the file is still the agent's or deleted by a pass |
| Stops.StopsIff | server.cpp:221-346 | in every run with at most 2^63 - 1 in all, whatever bytes clients send, exactly what stops the server and as what: no packet, no batch, an unknown agent, a number out of range, a transfer from a negative pocket, spent ids; no foreign key fails, no owner reads as NULL, no credit overflows |
| Safety.QuietRunsStayNonNegative | util/database.cpp:303-357 | balances stay non-negative in every run in which no transfer debits a charged pocket between snapshot and charge |
| Safety.AtomicPassesStayNonNegative | util/database.cpp:303-357 | balances stay non-negative in every run whose passes are atomic |
| Schedule.StepTakes | util/database.cpp:180-225 | between snapshot and charge a balance changes by transfers alone, by what they take or bring |
| Safety.NeverNegativeIff | util/database.cpp:303-357 | for every run: no balance is ever negative exactly when each charge finds every pocket on its bill still holding the fee |
| Schedule.NeverNegativeIffWithinMargins | util/database.cpp:303-357 | for every run: no balance is ever negative exactly when, between each snapshot and its charge, the net outflow from every charged pocket stays within its balance there minus the fee |
| Counterexamples.RaceGoesNegative | util/database.cpp:303-357 | a run of the two threads that ends with a balance of -10 |
| Counterexamples.NegativeBalanceStops | util/database.cpp:200-203 | that run continued: the agent's next transfer stops the server |
| Counterexamples.OversizeConversation | netvend/response.cpp:63-72 | consistent tables and a batch of two reads whose results the client does not get |
| Counterexamples.LongNameLost | netvend/commands.cpp:188-207 | a file name of 256 bytes arrives empty |
| Counterexamples.LongestPacketRefused | netvend/packet.cpp:80-115 | 65535 bytes of commands pass the writer and not the reader |
| Counterexamples.NegativeCharReadTwice | util/pack.cpp:386-391 | after a negative 'c' the next value is read from the same byte |
| Counterexamples.ExponentTooBig | util/pack.cpp:28-32 | 131072 stored in 16 bits reads back as another number |
| Access.StepAccess | server.cpp:29-152 | in each step nothing changes but by a command, within the bounds of the agent its packet names (only that agent's files rewritten, money taken by exactly the amount named, addresses set, files and empty pockets added), by a handshake, or by a bill |
| Reads.UpdateStaysRead | server.cpp:118-152 | in every run: after an update answered as done, every agent reads those bytes until the next update of that file or a bill that evicts it |
| Reads.CreatedStaysThere | server.cpp:102-116 | in every run: the id answered is that of a file that was not there before, of that agent, name and pocket, and empty until updated or evicted |
| Serial.BatchAlone | server.cpp:221-264 | for any agent named and any bytes, the io thread's transactions with no fee transaction between them end in the tables and results of the serial request, decoding included |
| Serial.HandshakeAlone | server.cpp:29-62 | and the four of a handshake in its serial outcome (`EndToEnd.HandshakeServed` starts from its packet) |
| Serial.PassAlone | util/database.cpp:303-358 | and snapshot and charge in the atomic pass |
| Serial.CheckAgain | server.cpp:72-133 | making the check again right before the write would give the same answer and tables |
| Serial.RunRefines | server.cpp:29-293 | every interleaving is a run of a server whose commands are single transactions, through the same tables and results |
| EndToEnd.LoopKeeps | server.cpp:243-261 | from consistent tables the batch loop leaves consistent tables and results that answer the batch and fit the wire |
| EndToEnd.AddressTravels | netvend/packet.cpp:86-128 | every agent's address fills the packet's address field and has no zero byte to cut it |
| Progress.StepProgress | server.cpp:29-264 | each transaction of the io thread brings its request closer to its end, and nothing else touches it |
| Progress.RequestEnds | server.cpp:221-264 | whatever fee transactions lie between, a batch of n commands is finished or has stopped the server within 2n + 2 transactions |
| Progress.LeftBounded | server.cpp:311-344 | so within 512, and a connection within 513 |
| EndToEnd.RequestArrives | netvend/packet.cpp:86-132 | the server decodes exactly the agent named and what was sent of the batch |
| EndToEnd.Conversation | server.cpp:221-264 | for every batch a client can write, the server runs exactly what was sent of it, and the client reads exactly the server's results, cut short or not, exactly when they are below 65536 bytes |
| EndToEnd.RequestServed | server.cpp:311-344 | the same as a run, from any state in which a client can connect |
| EndToEnd.HandshakeArrives | netvend/packet.cpp:10-61 | a handshake packet is taken for one, with exactly the key it carries |
| EndToEnd.HandshakeServed | server.cpp:29-62 | from any state in which a client can connect: a known agent is told so and nothing changes; a new one ends recorded with this key and an empty pocket of its own, whose id it is told |
| EndToEnd.FinishedRunDelivers | netvend/response.cpp:59-98 | the same in every run with both threads, whatever fee transactions intervened |
| EndToEnd.HandshakeDelivers | netvend/response.cpp:16-45 | the client learns whether it is new and, if so, the id of the pocket that is now its own |

## Left out

- Sockets, the accept loop, the console client and its printing: a connection is a byte sequence, and a read past its end the exception of a short read.
- Failures outside the state machine's steps: a response that cannot be written, a public key that does not parse, a lost database connection, and exceptions in the fee thread.
- RSA keys, signatures and the inside of their verification, DER, and the inside of the hashes: a digest is any function with 32-byte results, a key hash any 20 bytes, and the address of a handshake's key any non-empty one.
- PostgreSQL and pqxx beyond the prepared statements: each transaction is atomic and isolated, so isolation anomalies between overlapping transactions and text-encoding errors are not modelled.
- Blank padding of `character(34)` columns: addresses compare as byte strings, which is the same for addresses of full length.
- A name longer than `varchar(256)`: the one-byte length of the wire format keeps names below that.
- What a copy writes past the end of a vector when a size does not fit its field, and reads past the end of a buffer: both are undefined in C++; the model keeps what lies in the vector, and a read fails.
- Fee rates as floating-point configuration values, negative rates, and overflow in the grouped query: fees are natural numbers.
- Timing of the fee thread: passes may occur at any time, one at a time.
- The sum `cost_` of a result batch, which the constructor never initialises: results carry their own cost.
- The completion byte is always ALL, and the deposit address always the same dummy: constants.
- `what_` texts, getters and memory ownership.
- Rounding of C `float` and `long double`, and left shifts of negative or overflowing exponents, undefined in C++: reals are exact, and shifts are taken in 64-bit two's complement.
- `packi16/32/64` and `unpacki*/unpacku*` are functions on byte sequences, not stores through a pointer; `Pack.RunPack` does the storing.
- Pack.RunPack: a buffer too small for the packed bytes is excluded, as `pack` has no way to notice it.

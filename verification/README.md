# RegionIO: a verified model of the protocol core

RegionIO is a Minecraft Java Edition server core. This project models the parts of it that decide
something hard and proves what they promise, for every input, every interleaving and every run:

- **NBT** (`Bytes`, `Mutf8`, `Nbt`, `NbtDecode`, `NbtProofs`, `NbtForm`): the printer, and the recursive parser
  with its cursor, depth limit and length checks, over Modified UTF-8 (JVM Specification, section 4.4.7;
  UTF-16 as in RFC 2781, sections 2.1 and 2.2). Any byte string parses to an error or to a well-formed
  tree no larger than what was read; printing and parsing are inverse; a printed tree cut short anywhere
  fails with the truncation error and no other. `NbtForm` states the bytes themselves, by digits and kind
  numbers, and what becomes of bytes no printer writes.
- **Wire layer** (`Varint`, `Framing`, `LpVec3`): unsigned LEB128 (DWARF 5, section 7.6), packet frames
  with a compression threshold, and the quantised velocity vector with its error bound.
- **Connection** (`Outbound`, `Cfb8`, `Delivery`): the bounded outbound queue as atomic steps of any
  number of senders, one writer and shutdown; the CFB8 stream cipher (NIST SP 800-38A, section 6.3) over
  an arbitrary block function; and both with the packet frames, from a send to what the peer reads.
- **Login** (`Login`, `LoginHandlers`): offline login of server and client as a product of two machines
  over two FIFO links, and both sides as the objects they are.
- **Chunk streaming** (`Recenter`, `Spiral`, `Batching`, `Streamer`, `Settling`): the "newest wins"
  recenter queue, the spiral order, what a pass over it sends batch by batch, the streamer that sends it
  and tracks what the client has, and queue and streamer together.
- **Gameplay** (`Advancement`, `Clone`, `Anvil`, `AnvilPrice`): the two walks over the advancement registry,
  the `/clone` command, and the anvil's merges, prices and refusals.

Code that works by changing things is written that way: parsers, writers, cipher, streamer, registry,
block store and both login sides are classes or loops, each proved against a function of its input or its
old state; what the source promises is then proved about that function. Protocols between goroutines are
state machines over their atomic steps. `Wrappers` holds the result types all modules share.
`dafny verify dfyconfig.toml` checks everything.

Where the code does less than its comments suggest, the exact extent is proved:

- A string survives its 16-bit length field if and only if its encoding fits it (`StringSurvives`,
  `RawZeros`): the printer cuts the length, it does not refuse.
- A packet comes back from its frame if and only if its size is within the reader's limits
  (`FrameRoundTrip`): the writer does not check them.
- The recenter queue keeps the newest request, but a request whose call is still under way can drop a
  newer one (`NewestLostMidCall`); `NewestWins` holds once no call is under way.
- On the result of an anvil operation a level stays between the left level and the maximum if and only
  if the left one is not above the maximum, and the right one is not either where it is applied
  (`LevelsExact`); a book above the maximum fails it (`LevelsFail`).
- A block moved by `/clone` is in exactly one of its two places if and only if it both arrives and
  leaves, or does neither (`MoveKeepsOne`). It arrives when its chunk was loaded and the
  store takes it, or when a refusing place held the same block; it leaves when its old place loads again
  and takes the air. A store refuses a write when a chunk does
  not load or the light around it cannot be built, so a block can be lost (`MoveLoses`) or doubled
  (`MoveDoubles`).

## Model

| member | source | states |
|---|---|---|
| Mutf8.EncodeModifiedUTF8 | internal/nbt/mutf8.go:14-31 | Appends the one-, two- and three-byte forms of the string's UTF-16 units |
| Mutf8.DecodeModifiedUTF8 | internal/nbt/mutf8.go:34-59 | Fails exactly on malformed bytes, and otherwise gives the string of the units read |
| Mutf8.Utf16RoundTrip | internal/nbt/mutf8.go:15-16 | Pairing surrogates undoes splitting into them, for every string of scalar values |
| Mutf8.UnitsRoundTrip | internal/nbt/mutf8.go:14-59 | The byte parser inverts the byte printer on every sequence of 16-bit units, unpaired surrogates too |
| Mutf8.TextRoundTrip | internal/nbt/mutf8.go:14-59 | Decoding undoes encoding for every string |
| Mutf8.EncodedBytes | internal/nbt/mutf8.go:18-28 | No encoded byte is zero and none leads a four-byte form |
| Mutf8.CutText | internal/nbt/mutf8.go:34-59 | A proper prefix of an encoding never decodes to the same string |
| Mutf8.EncodedIs | internal/nbt/mutf8.go:14-31 | A string is written character by character: two bytes for NUL, one to three up to U+FFFF, three for either half above |
| Mutf8.DecodeExact | internal/nbt/mutf8.go:34-59 | Bytes are read as some units if and only if they are one-, two- and three-byte forms of them in a row; all other bytes are malformed |
| Mutf8.Unpaired | internal/nbt/mutf8.go:58-58 | A surrogate that is no half of a pair is read as U+FFFD |
| Nbt.Compound.Set | internal/nbt/nbt.go:79-85 | The entry is set in place of one of its name, or else last; every other entry stays as and where it was |
| Nbt.Compound.Get | internal/nbt/nbt.go:88-91 | Finds a value exactly when the key is present, and then the one set for it |
| Nbt.SetEntryDistinct | internal/nbt/nbt.go:79-85 | Setting an entry keeps the keys distinct |
| Nbt.AppendString | internal/nbt/encode.go:25-31 | Patches the placeholder with the encoded length cut to 16 bits |
| Nbt.AppendPayload | internal/nbt/encode.go:34-72 | Appends the payload of every kind of tag |
| Nbt.AppendList | internal/nbt/encode.go:74-85 | Appends a list, an empty one with element id zero whatever its kind |
| Nbt.AppendCompound | internal/nbt/encode.go:87-95 | Appends the entries in insertion order and the end byte |
| Nbt.Marshal | internal/nbt/encode.go:11-14 | The nameless root form used on the network |
| Nbt.MarshalNamed | internal/nbt/encode.go:18-22 | The named root form used in files |
| NbtDecode.Decoder.Text | internal/nbt/decode.go:103-114 | Result and cursor of reading a string, with the truncation and malformed-text errors |
| NbtDecode.Decoder.Count | internal/nbt/decode.go:198-207 | Refuses a negative count, and one whose elements cannot fit the bytes left |
| NbtDecode.Decoder.Payload | internal/nbt/decode.go:117-196 | Result and cursor for every tag id; terminates on any bytes with the depth restored |
| NbtDecode.Decoder.Container | internal/nbt/decode.go:209-216 | One level deeper inside, the same depth after, the depth error past 512 levels |
| NbtDecode.Decoder.List | internal/nbt/decode.go:218-243 | Reads the elements in order, and refuses a non-empty list of end tags |
| NbtDecode.Decoder.CompoundPayload | internal/nbt/decode.go:245-265 | Reads entries to the end byte; a repeated key keeps its place with the last value |
| NbtDecode.Unmarshal | internal/nbt/decode.go:26-36 | The parsed nameless root, or the error |
| NbtDecode.UnmarshalNamed | internal/nbt/decode.go:40-55 | The parsed named root, or the error |
| NbtProofs.PayloadStable | internal/nbt/decode.go:57-65 | Any result other than the truncation error is unchanged by more bytes behind the input |
| NbtProofs.NamedRootStable | internal/nbt/decode.go:40-65 | The same for a whole named root |
| NbtProofs.PayloadSound | internal/nbt/decode.go:117-265 | A parsed tag has the id asked for, is well formed, fits the depth left, and has at most one node a byte read |
| NbtProofs.NamedRootSound | internal/nbt/decode.go:40-265 | Every successful parse is a well-formed tree of nesting at most 512 with fewer nodes than bytes read |
| NbtProofs.PayloadBack | internal/nbt/encode.go:34-95 | At any depth, parsing a printed tag gives the tag, or the depth error exactly when its nesting passes the limit |
| NbtProofs.NamedRoundTrip | internal/nbt/encode.go:18-95 | Parsing a printed named root, whatever follows, gives name and tag and stops at its last byte, exactly when its nesting is at most 512 |
| NbtProofs.NetworkRoundTrip | internal/nbt/encode.go:11-95 | The same for the nameless form |
| NbtProofs.CutNamed | internal/nbt/decode.go:57-65 | Every proper prefix of a printed named root fails with the truncation error |
| NbtProofs.CutNetwork | internal/nbt/decode.go:57-65 | The same for the nameless form |
| NbtProofs.ReparseNamed | internal/nbt/decode.go:117-265 | What any bytes parsed to prints and parses to itself, up to the ids of empty lists, if its strings fit |
| NbtProofs.NormalBytes | internal/nbt/encode.go:74-85 | A tag and its parsed-back form print to the same bytes |
| NbtProofs.StringSurvives | internal/nbt/encode.go:25-31 | A root string comes back from its bytes if and only if its encoding is at most 65535 bytes |
| NbtProofs.RawZeros | internal/nbt/mutf8.go:18-23 | n raw zero bytes are accepted as a string, and it survives printing if and only if 2n fits 16 bits |
| NbtForm.Printed | internal/nbt/encode.go:34-95 | A tag is printed as big-endian digits, two's complement, counts, kind numbers and names, each in its place |
| NbtForm.RootPrinted | internal/nbt/encode.go:11-22 | A root is printed as its kind, its name unless it has none, and its payload |
| NbtForm.LongTextPrinted | internal/nbt/encode.go:25-31 | The length of any string is written modulo 2^16, and all its characters follow |
| NbtForm.SetKeepsLast | internal/nbt/nbt.go:79-85 | After any sets each name is kept once, in the order they first came, with its last tag |
| NbtForm.RepeatedNames | internal/nbt/decode.go:245-265 | A compound printed with any entries, repeated names or not, parses to each name once, where it came first, with the tag written last |
| NbtForm.KindRefused | internal/nbt/decode.go:117-216 | Unknown kinds, and containers past 512 levels, are refused |
| NbtForm.CountRefused | internal/nbt/decode.go:198-243 | Negative counts, counts past the input, and lists of end tags are refused, each with its error; an empty list may name any kind |
| NbtForm.TextRefused | internal/nbt/decode.go:103-114 | A string is refused exactly when it is cut off or its bytes are no characters |
| NbtForm.EndIsNone | internal/nbt/decode.go:26-55 | An end tag in place of a root is no tag |
| Varint.AppendVarInt | internal/protocol/types.go:110-119 | Appends the LEB128 bytes of the 32-bit pattern |
| Varint.AppendVarLong | internal/protocol/types.go:122-131 | Appends the LEB128 bytes of the 64-bit pattern |
| Varint.VarIntLen | internal/protocol/types.go:134-142 | The number of bytes that writing the value takes |
| Varint.Reader.LebValue | internal/protocol/types.go:78-107 | The value and cursor of both reading loops, with overlong and truncated input refused |
| Varint.Reader.ReadN | internal/protocol/buffer.go:38-45 | Exactly the next n bytes, or an error that moves nothing |
| Varint.LebFromBound | internal/protocol/types.go:78-107 | A read value of k bytes is below 128 to the k and fits its width; at most 5 or 10 bytes are read |
| Varint.IntBack | internal/protocol/types.go:78-119 | Reading a written VarInt gives the value and stops behind it, whatever follows |
| Varint.LongBack | internal/protocol/types.go:94-131 | The same for VarLong |
| Varint.IntCut | internal/protocol/types.go:78-91 | Input that ends within a written VarInt fails with the truncation error |
| Varint.WrittenMeans | internal/protocol/types.go:110-131 | The written bytes are the seven-bit digits of the two's complement, low first, all but the last marked |
| Varint.IntExact | internal/protocol/types.go:78-107 | Whatever the bytes: at most 5 or 10 are read as what their digits mean, cut to the width; more are too big, and input that ends before is truncated |
| Varint.IntShortest | internal/protocol/types.go:110-119 | No byte string the reader accepts for a value is shorter than the written one |
| Varint.LongShortest | internal/protocol/types.go:122-131 | The same for VarLong |
| Framing.ReadPacket | internal/protocol/frame.go:32-50 | The packet and cursor, with the size, compression and truncation errors |
| Framing.ParseCompressed | internal/protocol/frame.go:53-98 | The stored or inflated packet, with every threshold and length check |
| Framing.AppendPacket | internal/protocol/frame.go:130-167 | Appends the plain frame, or the stored or compressed one by the threshold |
| Framing.ContentBack | internal/protocol/frame.go:53-167 | The writer's stored/compressed choice satisfies the reader's threshold checks |
| Framing.FrameRoundTrip | internal/protocol/frame.go:32-167 | A frame reads back to its packet and its end, whatever follows, if and only if the sizes are within the reader's limits |
| Framing.LargeRefused | internal/protocol/frame.go:77-90 | An oversized compressed packet is never read back as itself |
| Framing.StreamRoundTrip | internal/protocol/frame.go:32-167 | The concatenated frames of any packets, each under its own threshold, read back as exactly those packets |
| Framing.CutFrame | internal/protocol/frame.go:32-50 | Input that ends within a frame fails with the truncation error |
| Framing.LengthMeans | internal/protocol/frame.go:137-167 | A length is written modulo 2^32 |
| Framing.FrameExactly | internal/protocol/frame.go:32-50 | A frame is a packet if and only if its length is at most 2 MiB, its bytes are all there, and they are the packet |
| Framing.CompressedExactly | internal/protocol/frame.go:53-98 | Under compression, if and only if it holds the packet as it is below the threshold, or deflated from the threshold up to 2 MiB with its true length and nothing behind |
| Framing.CompressedRefused | internal/protocol/frame.go:53-98 | Every other one is refused with its error; a declared length out of bounds before it is inflated |
| LpVec3.Writer.LPVec3 | internal/protocol/lpvec3.go:50-78 | Appends the one-byte zero form, or six bytes with a continued scale |
| LpVec3.ReadLPVec3 | internal/protocol/lpvec3.go:15-47 | The vector and cursor, or the truncation error |
| LpVec3.JoinFields | internal/protocol/lpvec3.go:67-70 | Header and the three 15-bit fields never overlap |
| LpVec3.BitsBack | internal/protocol/lpvec3.go:15-78 | The scale comes back exactly up to 2^34 - 1, with the packed bits; the first byte is not zero |
| LpVec3.UnpackError | internal/protocol/lpvec3.go:38-46 | A component comes back within scale / 32766, never above the scale, and zero exactly |
| LpVec3.VecRoundTrip | internal/protocol/lpvec3.go:15-85 | Reading a written vector gives every component, kept within 17179869183, to n / 32766 for any whole n not below them, zero and NaN as zero; the first byte is zero exactly when all are below 1/32766 |
| LpVec3.WrittenLayout | internal/protocol/lpvec3.go:50-85 | The scale is the least whole number not below any component and stands in the low bits and what follows; the components stand in the three fields above |
| LpVec3.ReadLayout | internal/protocol/lpvec3.go:15-47 | Whatever the bytes, the reader takes the same bits for the same fields, a field of all ones as the scale |
| Outbound.SafeRun | internal/network/conn.go:160-266 | In every interleaving the byte count is the queued bytes and those in the writer's hands, less a packet queued and not yet counted, and at most 8 MiB; the wire is a prefix of the accepted frames in order |
| Outbound.SentIsOnWire | internal/network/conn.go:160-197 | A waiting send that returned without error has its whole frame on the wire, after all earlier ones |
| Outbound.AnsweredOnce | internal/network/conn.go:199-221 | A packet's answer never changes and the writer never blocks on giving it |
| Outbound.FullExactly | internal/network/conn.go:160-186 | In every run a call is refused as full if and only if it met more than 8 MiB as it began, or 256 packets on an open connection as it selected |
| Outbound.AcceptedWithRoom | internal/network/conn.go:160-186 | With room in bytes and queue of an open connection a send can take its steps and is then last in the queue |
| Outbound.ClosedMeans | internal/network/conn.go:171-197 | A call returns closed only on a closed connection and with no other answer waiting for it |
| Outbound.LeftoversAnswered | internal/network/conn.go:199-266 | What is left in the queue is answered with the error of the failed write, or as closed |
| Outbound.EverySendSucceeds | internal/network/conn.go:160-266 | When no write fails, nobody closes and no limit is met, every returned call succeeded, and in the end every accepted frame is out |
| Outbound.KeepInv | internal/network/conn.go:160-273 | Every atomic step of senders, writer and shutdown keeps the invariant |
| Outbound.Progress | internal/network/conn.go:199-266 | Every step other than a new call or a shutdown decreases a measure |
| Outbound.BoundedRun | internal/network/conn.go:160-266 | From any reachable state those steps come to an end |
| Outbound.QuietMeansReturned | internal/network/conn.go:160-266 | When they have, every call has returned and the writer is idle on an empty queue, or stopped on a closed connection |
| Cfb8.Stream.XorKeyStream | internal/network/crypto.go:113-129 | Each byte written is the byte read XOR the cipher of the 16 ciphertext bytes before it, IV first; the register follows, also when source and destination are one array |
| Cfb8.OutputEnciphers | internal/network/crypto.go:113-129 | The same for the whole output of a stream, encrypting and decrypting |
| Cfb8.OutputsJoined | internal/network/crypto.go:113-129 | Splitting a stream into calls does not change its bytes |
| Cfb8.EncryptRegister | internal/network/crypto.go:113-129 | Encrypting, the register is the last 16 bytes of IV followed by ciphertext |
| Cfb8.DecryptRegister | internal/network/crypto.go:113-129 | Decrypting, it is the same |
| Cfb8.StreamsInverse | internal/network/crypto.go:94-129 | Decryption undoes encryption for any block function, IV and splittings on either side |
| Cfb8.Resync | internal/network/crypto.go:113-129 | Registers that agree in their last k bytes give equal plaintext after 16 - k bytes |
| Cfb8.WrongStart | internal/network/crypto.go:94-129 | A decrypter with a wrong register recovers every byte after the first 16 |
| Delivery.PartRead | internal/protocol/frame.go:32-50 | Any part of a stream of frames reads back as the packets whose frames are whole, then the truncation error |
| Delivery.ReceivedIs | internal/network/conn.go:223-250 | Encrypted frame by frame from some packet on, cut anywhere and decrypted in any portions, the frames come back |
| Delivery.Delivered | internal/network/conn.go:137-266 | In every run of the queue the peer reads exactly the packets whose frames are whole on the wire, the first accepted ones in order, and then the end of the input |
| Delivery.SentIsRead | internal/network/conn.go:137-197 | A waiting send that returned without error has its packet among those the peer reads |
| Login.EveryRunReachesPlay | internal/network/login.go:34-96 | With a valid name no run fails, every run can go on to a fixed number of steps, and then both sides play under one threshold with empty links |
| Login.ReadAsWritten | internal/e2e/client.go:308-549 | Each packet is read in the phase and under the threshold it was written with |
| Login.StandsNext | internal/network/configuration.go:51-177 | Every step of either side leads to the next place of the one conversation |
| Login.LoginExactly | internal/network/login.go:55-96 | A client with a version other than 775 or a name not of 1 to 16 letters, digits and underscores gets no answer and never past the login phase; any other can always go on to play |
| Login.ConversationIds | internal/protocol/ids.go:20-80 | The packet ids of the whole conversation by number, in order |
| Login.ServerRefusesExactly | internal/network/handler.go:52-160 | In every state, exactly which packets make the server give the connection up |
| Login.ServerAnswersExactly | internal/network/login.go:34-173 | And what it does and sends on every other one |
| Login.ClientRefusesExactly | internal/e2e/client.go:308-549 | In every state, exactly which packets make the client give up |
| Login.ClientAnswersExactly | internal/e2e/client.go:308-549 | And what it does and sends on every other one |
| LoginHandlers.Handler.HandleHandshake | internal/network/handler.go:97-133 | The version is recorded and the next state taken, or the connection is given up |
| LoginHandlers.Handler.HandleStatus | internal/network/handler.go:136-160 | The status answer, the echo of a readable ping, or the connection is given up |
| LoginHandlers.Handler.HandleLoginStart | internal/network/login.go:55-96 | Step, version and name are checked before anything is sent |
| LoginHandlers.Handler.FinishLogin | internal/network/login.go:160-173 | Compression is switched on between its packet and the success packet |
| LoginHandlers.Handler.HandleLogin | internal/network/login.go:34-53 | The login packets by id; an acknowledgement only after success |
| LoginHandlers.Handler.HandleKnownPacks | internal/network/configuration.go:134-224 | An unreadable body gives the connection up; else every registry, then the tags, then the finish packet |
| LoginHandlers.Handler.HandleConfiguration | internal/network/configuration.go:51-177 | The configuration packets by id, unreadable bodies refused where they are decoded |
| LoginHandlers.Handler.Serve | internal/network/handler.go:52-94 | Up to the play phase, the state after and all packets sent for any sequence of packets |
| LoginHandlers.Client.Login | internal/e2e/client.go:308-400 | Hello, threshold changes and the acknowledgement, for any sequence of packets |
| LoginHandlers.Client.CompleteConfiguration | internal/e2e/client.go:405-549 | The answers of the configuration phase up to the play phase, unreadable bodies refused where they are decoded |
| LoginHandlers.Client.Join | internal/e2e/client.go:308-549 | The state after, and all packets sent for, any sequence of packets |
| LoginHandlers.ServerConversation | internal/network/handler.go:52-133 | Given the client's packets the server writes exactly those the client expects, and plays |
| LoginHandlers.ClientConversation | internal/e2e/client.go:308-549 | Given the server's packets the client writes exactly those the server expects, and plays |
| LoginHandlers.StatusConversation | internal/network/handler.go:97-160 | A client of any version that asks for the status gets it, then its ping back, and nothing else |
| Recenter.RunInv | internal/network/streamer.go:99-115 | With any number of requesters the queue stays a suffix of the requests sent |
| Recenter.NewestWins | internal/network/streamer.go:171-192 | A parked streamer with an empty queue and no call under way stands on the newest request |
| Recenter.NewestLostMidCall | internal/network/streamer.go:99-115 | A reachable state where a call under way dropped the newest request |
| Recenter.CallCanReturn | internal/network/streamer.go:99-115 | A call can always return with its request last in a queue of at most four, dropping the oldest when it is full |
| Recenter.ReceiveTakes | internal/network/streamer.go:176-182 | A parked streamer takes the oldest queued request |
| Recenter.DrainTakesNewest | internal/network/streamer.go:347-358 | Draining ends on the newest request of the queue and leaves it empty |
| Spiral.SpiralOrder | internal/network/streamer.go:581-603 | The rings from the centre out, a negative radius as zero |
| Spiral.AppendRing | internal/network/streamer.go:588-600 | The four walks of one ring |
| Spiral.OrderCovers | internal/network/streamer.go:581-603 | Every chunk of the square exactly once, and no other |
| Spiral.OrderLength | internal/network/streamer.go:585-585 | (2r+1)^2 chunks |
| Spiral.NearFirst | internal/network/streamer.go:262-275 | Chebyshev distance never decreases along the order |
| Spiral.RingContinuous | internal/network/streamer.go:588-600 | Neighbours within a ring share an edge, its ends too |
| Spiral.RingTurns | internal/network/streamer.go:588-600 | A ring starts at its corner of least x and z and turns at the other three, in order |
| Spiral.ViewFirst | internal/network/streamer.go:205-228 | The first (2v+1)^2 chunks are exactly the smaller view |
| Streamer.NeverConfused | internal/network/streamer.go:241-247 | On a wire that leaves the client sane, every frame was for a chunk it lacked and every forget for one it had |
| Batching.AllReady | internal/network/streamer.go:425-470 | Results for all pending chunks, in any order and without error, make the whole list ready |
| Batching.GoodMeans | internal/network/streamer.go:425-471 | A frame counts exactly when it came without error and before the first one |
| Batching.CutsCover | internal/network/streamer.go:282-300 | The keys are covered in order by batches of one ring and at most the pool size, each as long as that allows |
| Batching.StreamInPlace | internal/network/streamer.go:277-319 | What a stream sends is new to the client, each chunk once and nearest first; nothing sent is taken back |
| Batching.StreamCompletes | internal/network/streamer.go:277-319 | A stream whose jobs are all answered, that found no newer recenter and leaves the connection open, has sent all its keys |
| Batching.SentExactly | internal/network/streamer.go:277-319 | When all jobs are answered, a stream that ends after n batches has sent exactly the chunks of those that the client lacked, in order |
| Batching.FoundExactly | internal/network/streamer.go:277-319 | The newer recenter returned is that of the first batch that has one, before it when a ring is lit or after it |
| Batching.SendsInPlace | internal/network/streamer.go:197-260 | What a pass sends is part of the view and new to the client, each chunk once and nearest first |
| Batching.PassCompletes | internal/network/streamer.go:197-260 | A calm pass that found no newer recenter and leaves the connection open leaves the client with exactly the view |
| Batching.NextExactly | internal/network/streamer.go:249-259 | A pass returns what was found while the view was sent, or else while the ring was preloaded |
| Batching.PassStaysOpen | internal/network/streamer.go:197-260 | A pass all of whose sends work leaves the connection open |
| Streamer.Streamer.constructor | internal/network/streamer.go:68-94 | The view distance is clamped to 2..16 and the residency starts empty |
| Streamer.Streamer.SwitchDimension | internal/network/streamer.go:120-134 | The resident set and the client's chunks are empty, the streamer's own set waits for the reset |
| Streamer.Streamer.ApplyPendingSwitch | internal/network/streamer.go:143-166 | After a switch both sets are empty, else unchanged; they agree again |
| Streamer.Streamer.ParallelSend | internal/network/streamer.go:383-472 | The pending chunks go out in list order, once each, exactly up to the first not ready or the failed send, unless a dimension switch came; nothing while one is pending |
| Streamer.Streamer.SendReady | internal/network/streamer.go:429-471 | The same for any order of worker results, with the residency following what was sent |
| Streamer.Streamer.StreamPriority | internal/network/streamer.go:277-319 | Exactly the chunks of the batch-by-batch stream go out, a prefix of them if a dimension switch came; the newer recenter returned is that of the first batch that has one |
| Streamer.Streamer.DropStale | internal/network/streamer.go:239-247 | Exactly the chunks outside the view are forgotten, once each, whatever order the map is walked in |
| Batching.SplitIs | internal/network/streamer.go:214-230 | What is sent is the view in spiral order, what is only generated is the ring around it |
| Batching.SquareMeans | internal/network/streamer.go:262-275 | The view is the chunks at most the radius away in either direction |
| Streamer.Streamer.ProcessRecenter | internal/network/streamer.go:197-260 | From what is left after a dimension switch, the stale chunks are forgotten and those of the pass sent, all of them unless a switch comes; the newer recenter is the one found; a calm pass that finds none leaves the set equal to the view; with working sends the connection stays open |
| Streamer.Streamer.Run | internal/network/streamer.go:171-192 | Any sequence of passes and dimension switches keeps the resident set equal to the streamer's own, or empty while a switch is pending, keeps the client sane and, while the connection is open, its chunks equal to the resident set; it ends on the centre that the recenters found lead to |
| Settling.Follow | internal/network/streamer.go:171-260 | Through any run of the queue the parked streamer stands on the centre last received, inside its view, and holds all of it if the run's last pass was calm and found nothing newer; with working sends the connection stays open |
| Settling.LastFoundNone | internal/network/streamer.go:181-192 | When passes find what the queue holds, the last pass of a parked streamer found no newer request |
| Settling.PassesMean | internal/network/streamer.go:181-192 | A pass ends exactly when the streamer parks or goes on with a newer request, which is the centre of the next |
| Settling.PassesExist | internal/network/streamer.go:171-192 | For every run of the queue there are passes that find exactly what it holds for each, calm and with working sends |
| Settling.Settle | internal/network/streamer.go:99-260 | Once no call is under way and the streamer waits, and the run's last pass was calm, the client of an open connection has exactly the square around the newest request |
| Advancement.CanonicalTwice | internal/server/advancement.go:269-284 | A canonical id is its own canonical form |
| Advancement.CanonicalMeans | internal/server/advancement.go:269-284 | Blanks around are dropped, letters made small, the default namespace added, and the four former beacon ids replaced; blanks alone name nothing |
| Advancement.IdsAgree | internal/server/advancement.go:820-821 | The id index leads to every definition and to nothing else |
| Advancement.ChildrenAgree | internal/server/advancement.go:820-825 | The children of an id are exactly the definitions that name it as parent |
| Advancement.AdvancementRegistry.constructor | internal/server/advancement.go:815-826 | The loop builds both indexes of the definitions |
| Advancement.AdvancementRegistry.Ancestors | internal/server/advancement.go:1181-1202 | The parent chain root first, each id once, ending at a root or where a cycle closes |
| Advancement.AdvancementRegistry.Descendants | internal/server/advancement.go:1206-1229 | Everything at or below the id exactly once, nearest first, also with parent cycles; nothing for an unknown id |
| Advancement.ChainClosed | internal/server/advancement.go:1181-1202 | The listed chain holds every id above, also past the point where it closed |
| Advancement.Dual | internal/server/advancement.go:1181-1229 | d is among the descendants of a exactly when a is among the ancestors of d |
| Clone.Cache.GetBlock | internal/world/cache.go:1017-1031 | The block, or air where the chunk does not load |
| Clone.Cache.SetBlockWithLight | internal/world/cache.go:1104-1149 | Changes one cell, or nothing outside the height range or where the store refuses the write |
| Clone.OverlapMeans | internal/network/commands.go:3778-3786 | The overlap test is true exactly when the boxes share a cell |
| Clone.BoxMeans | internal/network/commands.go:3754-3762 | The box is what lies between its two corners, in any order |
| Clone.RefusalMeans | internal/network/commands.go:3763-3792 | Exactly when each refusal is made: more cells than the limit, a cell outside its world, a shared cell within one dimension without force, a dimension without a store |
| Clone.Snapshot | internal/network/commands.go:3794-3813 | The three loops list exactly the selected cells of the box, once each |
| Clone.Write | internal/network/commands.go:3820-3842 | The listed cells end up on top of the destination, and the writes that took are counted |
| Clone.Clear | internal/network/commands.go:3844-3875 | The listed cells outside the box to keep become air exactly where they load again and take it |
| Clone.CopyBox | internal/network/commands.go:3794-3842 | Snapshot and writes equal one simultaneous copy, overlapping or not, and the count is the number of cells written |
| Clone.ExecClone | internal/network/commands.go:3754-3889 | The refusals in order, or the simultaneous copy of what was read to what takes it; a move clears the selected cells that load again and take the air; every other cell is unchanged |
| Clone.CloneMeans | internal/network/commands.go:3794-3880 | Cell by cell: the block the snapshot saw where the mask takes it and the store takes the write, air where a moved one left, else what was there |
| Clone.ThereAndBack | internal/network/commands.go:3844-3880 | Moving a box away and back restores it and leaves the other place empty |
| Clone.MoveExact | internal/network/commands.go:3820-3880 | Exactly when a moved block arrives and exactly when it leaves, across dimensions and within one |
| Clone.MoveKeepsOne | internal/network/commands.go:3820-3880 | A moved block is in exactly one place if and only if it arrives and leaves or does neither; it is lost or doubled exactly otherwise |
| Clone.MoveLoses | internal/network/commands.go:3826-3868 | A block moved to any other place that refuses the write is lost |
| Clone.MoveDoubles | internal/network/commands.go:3855-3868 | A block moved from a place that refuses the air is doubled |
| Anvil.NextAnvilRepairCost | internal/server/anvil.go:389-394 | One more than doubles a non-negative penalty; never below one |
| Anvil.SortedEnchantments | internal/server/enchanting.go:432-446 | The active enchantments, each once, ascending by id |
| Anvil.SortedOnce | internal/server/enchanting.go:432-446 | There is one such list, so the order a map is walked in does not matter |
| Anvil.RepairByUnits | internal/server/anvil.go:435-452 | The loop uses as many units as are needed or there are, in closed form, and the damage left |
| Anvil.MergeEnchantments | internal/server/anvil.go:486-531 | The fold of the right item's enchantments, in sorted order, over the left ones |
| Anvil.HasConflict | internal/server/anvil.go:496-502 | True exactly when some other active enchantment is incompatible |
| Anvil.ComputeAnvilResult | internal/server/anvil.go:399-578 | The whole result: refusal, price, cap, output and next penalty |
| Anvil.DamageKept | internal/server/anvil.go:435-482 | Damage never grows and never turns negative, and no more material is used than there is |
| Anvil.LevelExact | internal/server/anvil.go:509-518 | One merged level is between the left one and the maximum if and only if neither input is above it |
| Anvil.MergedExactly | internal/server/anvil.go:489-531 | After the whole loop a level is the merged one exactly where the enchantment is known, fits and meets no conflict, and else the left one |
| Anvil.LevelAfter | internal/server/anvil.go:399-578 | On the result of an operation a level is the higher of the two, or one more than both up to the maximum, exactly where the enchantment is applied, and else the left one |
| Anvil.LevelsExact | internal/server/anvil.go:399-578 | A level of a result is between the left one and the maximum if and only if the left one is not above it and the right one is not either where it is applied |
| Anvil.LevelsFail | internal/server/anvil.go:509-518 | A book above the maximum is taken as it is, and merging two equal levels above it lowers them |
| Anvil.LevelsKept | internal/server/anvil.go:489-519 | No enchantment is lost, and one that is not in the registry keeps its level |
| Anvil.CompatibleKept | internal/server/anvil.go:489-519 | Enchantments pairwise compatible on the left item are so on the result |
| Anvil.CompatibleBothWays | internal/server/enchanting.go:252-279 | Compatibility is symmetric |
| Anvil.PenaltyStep | internal/server/anvil.go:549-570 | A survival operation that does more than rename at least doubles the penalty plus one of either item, which must be below the cap |
| Anvil.SixAtMost | internal/server/anvil.go:389-570 | A chain of survival operations, each result put into either slot of the next, holds at most six that do more than rename |
| Anvil.SixthWorks | internal/server/anvil.go:389-570 | Six is reached: of single-unit repairs exactly the first six succeed |
| AnvilPrice.MergePrice | internal/server/anvil.go:489-519 | A merge costs two levels for less damage, one for each clash, and for each applied enchantment its level times its price, from a book half of that but at least one |
| AnvilPrice.WorkPrice | internal/server/anvil.go:435-531 | The price of the work: nothing without a right item, a level for each unit of material, or the price of the merge |
| AnvilPrice.UnusableExactly | internal/server/anvil.go:425-535 | Exactly which right items cannot be used |
| AnvilPrice.OutcomeExactly | internal/server/anvil.go:546-578 | The whole outcome by the price of the work: nothing, too expensive from 40 levels in survival, 39 at most for a name alone, else the item with its name and next penalty |
| AnvilPrice.ItemExactly | internal/server/anvil.go:435-545 | Which item comes out and how damaged, after units of a quarter each or after two of one kind are joined |
| AnvilPrice.ModesMean | internal/server/anvil.go:429-431 | When the right item is repair material and when it is a book |
| AnvilPrice.LeftMeans | internal/server/anvil.go:413-413 | The item starts from its own enchantments of some level |
| AnvilPrice.CompatibleExactly | internal/server/enchanting.go:252-279 | Exactly which enchantments go together |

## Left out

- Mutf8.EncodeModifiedUTF8: strings are sequences of Unicode scalar values; Go strings that are not valid UTF-8 are not modelled.
- Bit operations on integers are written as arithmetic; the cipher alone works on bit vectors.
- NbtProofs.StringSurvives: exact for a root string only; for trees the forward direction is proved, because an oversized name inside a compound can make the rest parse as almost anything.
- A `*List` handed to the printer, which has no case for it and panics, is not a value of `Nbt.Tag`.
- NBT floats are their bit patterns, as the codec treats them.
- LpVec3.UnpackError: states the error over real numbers; float64 rounding is not modelled.
- LpVec3.VecRoundTrip: states the error over real numbers; float64 rounding is not modelled.
- zlib is an abstract pair whose inflate undoes deflate, AES an arbitrary function on blocks; RSA, SHA-1 and the session service are not part of this model.
- End of input and other read errors of the wire layer are one error.
- The other fixed-width fields of `internal/protocol/buffer.go`, such as `Position`, would add easy members only.
- Outbound.SafeRun: the wire is what is written to the socket before encryption, which `Delivery` adds; deadlines are not modelled, and a write fails at any point.
- Delivery.Delivered: the peer reads each packet under the threshold it was written with, as `Login.ReadAsWritten` shows for the login.
- `Close` waiting for the writer is not modelled; the writer's own end is.
- Login.EveryRunReachesPlay: offline mode and one login at a time, with the client's version and name as parameters; encryption and the play phase are not modelled, and packet bodies are reduced to the fields that decide something and to whether they can be decoded.
- LoginHandlers.Handler.Serve: stops at the play phase.
- Chunk coordinates, block coordinates, levels and costs are unbounded integers; their 32-bit overflow is not modelled.
- Streamer.Streamer.Run: a dimension switch comes between passes or at a check of the send loop; one that comes between a check and the update after it, or among the forget packets, leaves a resident chunk or a client packet of the old dimension until the reset.
- Streamer.Streamer.SwitchDimension: the respawn packet and the reset are one step. The code sends the respawn and several more packets before it asks for the reset (`internal/server/dimension.go:500-576`); frames or forgets of the old dimension can reach the client in between, and later passes then send chunks the client already holds.
- Settling.Settle: a pass is one step at the place where it ends, and finds what the queue machine holds for it there.
- Streamer.Streamer.SendFrame: a send that failed counts as not received, although its bytes may have left before the connection closed.
- Tickets, preloading and the frame cache are no-ops for what the client is sent.
- Advancement.CanonicalTwice: lower case and blanks are those of ASCII.
- Advancement.AdvancementRegistry.Descendants: needs distinct canonical ids and canonical parent ids, as the built-in table has; the child index is keyed by the parent id as it is written.
- Granting, revoking and the advancement table itself are long and easy.
- Clone.ExecClone: starts after the arguments are read; block entities, light values and the change broadcast are not modelled; whether the store loads a cell or takes a write is a parameter of each access.
- Anvil.ComputeAnvilResult: the new name comes in already trimmed and cut, enchantment ids are already canonical, and durability, repair materials and which items take which enchantment are parameters.
- World generation, storage, mobs, the other commands and the rest of the play phase are not modelled.

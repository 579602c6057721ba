# oixproxy: verified models of the transport, the pool and the codecs

oixproxy maps remote Snell v4 nodes to local SOCKS5 ports. This project models the parts of it that carry
other people's bytes or that several goroutines share, and proves what they promise.

Each object the program updates in place (the Snell writer, reader and connection, the pool and its leases, the
UDP hub, the DNS cache, the WebSocket and the delayed-dial connections) is a class whose methods have the
program's own loops and branches. Each method is proved against a specification on values, and the promises are
lemmas about those specifications: over whole streams, over every run of calls, or over every interleaving.

| files | what they model |
|---|---|
| `Bytes`, `Net`, `Text` | bytes and big-endian integers; the two ends of a connection, with short and failing writes; ASCII text |
| `SnellNonce`, `SnellPadding`, `SnellFrame`, `SnellIdentity`, `SnellPace` | the pieces of the Snell v4 format, and whole encoded streams |
| `SnellWriter`, `SnellReader`, `SnellStream` | the writer and reader objects, and what passes from one to the other |
| `SnellPeer` | the same format as a peer written from its description reads it, in literal numbers |
| `SnellLink`, `SnellConn`, `SnellPacket` | the connection: reply, half-close, reset, datagrams |
| `Pool`, `PooledConn`, `PoolRuns` | the idle list, a lease, and every interleaving of warming, dialling, reading and closing |
| `UdpHub`, `HostPort`, `UdpCodec` | the UDP association hub; hosts and ports as text; the SOCKS and Snell datagram formats and the relay between them |
| `Resolver`, `DnsWire`, `DnsPolicy` | the DNS cache and single-flight lookups; the message codec; nameserver policy |
| `WebSocket`, `WebSocketRuns`, `Tfo` | WebSocket framing and its concurrent writers; the delayed-dial connection |
| `SurgeGroups`, `SurgeRewrite`, `SurgeOutput`, `SurgeProfile` | the Surge template rewrite: group lines, the rewrite itself, and what the profile it writes contains |

## What is taken as given

- Authenticated encryption is a pair of functions with two laws: Open undoes Seal under the same nonce, and a
  ciphertext is 16 bytes longer than its plaintext. `SnellFrame.TAG_ONLY` shows that the laws can be met. The key
  derivation is a function from salts to ciphers; identity digests are functions known by their lengths.
- The clock, the random source, the order of map iteration, the outcome of each write to the network and of each
  deadline call are inputs, and every theorem holds for all of them. Pool and resolver clocks never go back.
- A holder of a pooled lease stops reading at the end of the stream or at an error, never writes an empty slice,
  writes nothing after its CloseWrite and does nothing after Close, and its peer answers a CONNECT with the reply, the
  data and one zero chunk (or a part of that): this is how `relay` (internal/inbound/mixed.go:350-379) behaves, and
  it is what `PoolRuns.Enabled` says.
- Write errors of a Snell transport are sticky, as they are for TLS: once a Write on it has failed, the half-close that
  `relayCopy` still attempts (internal/inbound/mixed.go:373-379) fails too. Pooling rests on this.
- Addresses are values. An IPv4 address and the same one mapped into IPv6 are one value, as `net.IP.Equal` has it;
  a UDP address keeps its zone, because its text shows the zone while the comparison of addresses does not look
  at it. Parsing the text of an IP address gives that address; hosts and ports joined and split as text are modelled
  byte by byte.

## Where the program falls short of the obvious statement

Each of these keeps the program's code as it is, and states exactly when the promise holds.

- A client heard under a second IPv6 zone leaves a second key in the hub's index
  (internal/inbound/hub.go:195) that `unregister` does not remove (internal/inbound/hub.go:92). Dispatch keeps the
  index exact if and only if the datagram is not such an alias (`UdpHub.DispatchIndexExact`), it follows the rule
  without an index if and only if the index holds no dead session for the address (`UdpHub.DispatchIsLinear`), and an
  unregistered session is never handed out again if and only if it had no other key (`UdpHub.UnregisterIsForGood`). In
  every hub where an alias can occur the unregistered session is returned again (`UdpHub.AliasOutlives`,
  `UdpHub.AliasReachable`).
- The rewrite compares section names without regard to case, except where a heading closes the group section
  (internal/serve/emit.go:146): to a section spelled `[proxy group]` and followed by another section none of the missing
  automatic groups is added (`SurgeProfile.OtherSpellingMisses` is a witness). `SurgeProfile.AutoGroupExactly` says for
  every template which automatic groups a client reads.
- Node names go into comma lists as they are (internal/serve/emit.go:254-263). A list comes back from the text if and
  only if every member but the last is trimmed, closes its quotes and escapes and holds no comma outside them, and the
  last is trimmed and holds no such comma (`SurgeGroups.SplitJoin`, `SurgeGroups.ExpandedLineReadsBack`,
  `SurgeGroups.AutoReadsBack`); the name `a, b` reads as two (`SurgeGroups.CommaSplits`).
- A name or a mapping can also make an added line look like a heading to a client: it takes the sections for what they
  are if and only if no mapping's line and no expanded group does (`SurgeProfile.HeadingsByText`, with
  `SurgeProfile.ExpandedMisleads` as a witness).
- The rule list of a policy map depends on the order in which the map is walked if and only if two of its keys give one
  trimmed pattern different servers (`DnsPolicy.OrderIndependent`, with `DnsPolicy.OrderShows` as a witness).
- A domain in a SOCKS datagram goes through text on its way to the server. It arrives as itself if and only if it holds
  no bracket; `[10.0.0.1]` arrives as the address 10.0.0.1, and `a]b` is refused, which ends the association
  (`HostPort.JoinSplit`, `UdpCodec.DestinationOf`, `UdpCodec.RelayUp`, `UdpCodec.BracketsChange`).
- Unregistering a session twice would take a later session off the index if and only if that one is pinned to the same
  client text (`UdpHub.UnregisterTwice`); the code unregisters once (internal/inbound/udp.go:31).
- The size check of a UDP request leaves room for 32 bytes of header (internal/snell/udp.go:15), which is enough for
  every accepted payload if and only if the domain has at most 28 bytes (`UdpCodec.RequestFits`); beyond that
  `WritePacket` may refuse the frame, and then nothing is sent.
- A WebSocket payload over 2^20 bytes can be written but is refused by every reader of the same code
  (`WebSocket.FrameRoundTrip`).
- A host name over 255 bytes in a SOCKS datagram to the client is cut to 255 (`UdpCodec.SocksCuts`).
- An empty `Write` or packet is a zero chunk, that is, a half-close (`SnellStream.Meaning`).

## Model

| member | source | states |
|---|---|---|
| SnellNonce.IncNonce | internal/snell/v4.go:618-625 | the in-place carry loop is one step of the little-endian counter; an all-ones nonce wraps to zero |
| SnellNonce.IncIsSuccessor | internal/snell/v4.go:618-625 | stepping the little-endian form of v, at any length, gives the form of v + 1 |
| SnellNonce.NonceAfter | internal/snell/v4.go:618-625 | after k steps from all zeros a nonce of any length is the little-endian form of k, reduced to its length |
| SnellNonce.NoncesDiffer | internal/snell/v4.go:35-38 | no two of 2^96 consecutive nonces are equal |
| SnellPeer.NonceIsCounter | internal/snell/v4.go:618-625 | the nonce after k seals is the twelve-byte little-endian counter at k, byte by byte |
| SnellPeer.NonceSpace | internal/snell/v4.go:35-38 | the nonce space in numbers: 2^96 |
| SnellFrame.NoncesNeverRepeat | internal/snell/v4.go:456-475 | for every list of chunks with at most 2^96 seals, no two seals of the direction use the same nonce |
| SnellFrame.NoncesCount | internal/snell/v4.go:456-475 | a zero chunk uses one nonce and any other chunk two, and the i-th seal uses the i-th nonce |
| SnellPadding.SwapPadding | internal/snell/v4.go:527-535 | byte by byte: an even position below both lengths gets the byte at the same position of the other part, every other position keeps its own |
| SnellPadding.InterleavedAt | internal/snell/v4.go:527-535 | the same of padding and ciphertext as they lie in a frame |
| SnellPadding.SwapTwice | internal/snell/v4.go:338-340 | swapping padding with ciphertext is its own inverse, whatever the two lengths |
| SnellPadding.InterleavedTwice | internal/snell/v4.go:338-340 | cutting a swapped frame at the padding length and swapping again gives padding and ciphertext back |
| SnellPadding.FillOnes | internal/snell/v4.go:577-582 | the bits to shuffle hold exactly the ones asked for |
| SnellPadding.Shuffle | internal/snell/v4.go:583-589 | the shuffle keeps the number of ones for every sequence of draws, and fails exactly when a draw does |
| SnellPadding.Pack | internal/snell/v4.go:590-595 | setting bits one by one gives the bytes whose bits, least significant first, are the shuffled ones |
| SnellPadding.OnesPacked | internal/snell/v4.go:590-595 | packing keeps the number of ones |
| SnellPadding.PackedBit | internal/snell/v4.go:590-595 | bit j of byte b is the shuffled bit at 8b + j, the least significant bit first |
| SnellPadding.BitCountPadding | internal/snell/v4.go:577-597 | for every 0 <= oneBits <= 8*length and all draws: exactly length bytes with exactly oneBits ones, or an error exactly when the random source fails |
| SnellPadding.MakePadding | internal/snell/v4.go:537-569 | padding has the length asked for; it is shaped exactly when the frame is balanced, the unit is drawn and the target is in range, and then the ones counted in frame and padding are within one bit of the target share; otherwise it is the random bytes; it fails exactly when a read it needs does |
| SnellPadding.BalancedMeans | internal/snell/v4.go:546-551 | a frame counts as balanced when it has more than half as many ones as zeros and less than 1.6 times as many |
| SnellPadding.CountedMeans | internal/snell/v4.go:541-545 | up to three bytes at the end of the frame are not counted |
| SnellPadding.GoalMeans | internal/snell/v4.go:552-560 | the goal shares the bits of the padded frame between ones and zeros in the ratio drawn: 0.4 to 0.5 when the frame has more ones than zeros, 1.6 to 1.7 otherwise |
| SnellPadding.ShapedMeans | internal/snell/v4.go:546-566 | the padding is shaped exactly when the ones still needed, fraction dropped, are neither negative nor more than it has bits |
| SnellPadding.TruncateMeans | internal/snell/v4.go:560-561 | the conversion to int drops the fraction, on both sides of zero |
| SnellPadding.CountOnes | internal/snell/v4.go:541-545 | the counting loop gives the number of one bits |
| SnellIdentity.Identity.Prefix | internal/snell/v4.go:477-493 | the identity bytes emitted after the salt always fill the budgeted length (24, 40 or 0); the only error is version 2 with an empty key |
| SnellIdentity.PrefixBytes | internal/snell/v4.go:477-493 | the identity byte by byte: the two magic texts, sixteen bytes of the digest of the key, sixteen of the code over exporter and salt |
| SnellFrame.ReadFrameOf | internal/snell/v4.go:310-344 | one written frame followed by anything reads back as its own payload or zero chunk, leaves the rest of the input, and steps the reader's nonce as the writer's |
| SnellFrame.CutFrame | internal/snell/v4.go:310-337 | a frame cut anywhere yields nothing but the end of input |
| SnellFrame.DecodeEncode | internal/snell/v4.go:310-344 | decoding undoes encoding for every list of chunks, all paddings and any continuation |
| SnellFrame.DecodePrefix | internal/snell/v4.go:310-344 | however much of an encoded stream has arrived, it decodes to a prefix of what was written and then stops for lack of input |
| SnellFrame.EncodeConcat | internal/snell/v4.go:456-511 | a stream written in two runs is the same wire as one written in one, with the nonce carried over |
| SnellFrame.WireGrows | internal/snell/v4.go:477-510 | a frame adds exactly its own bytes to the wire, preceded by salt and identity on the first frame only |
| SnellPeer.ReaderIsPeer | internal/snell/v4.go:310-344 | for every input, malformed input included, the reader's outcome, nonce and rest are those of a peer written from the format in literal numbers |
| SnellPeer.PeerReadsWriter | internal/snell/v4.go:456-511 | that peer reads each frame the writer sends as its payload or zero chunk, whatever padding and whatever follows |
| SnellPeer.FrameHeader | internal/snell/v4.go:456-475 | the first 23 bytes of a frame seal version 4, two zeros and the two lengths, high byte first, under the counter |
| SnellPeer.FrameBody | internal/snell/v4.go:495-509 | in the rest, the even bytes of padding and ciphertext are exchanged as far as both reach, and the odd bytes stay where they were |
| SnellPeer.StreamIsPeer | internal/snell/v4.go:101-112 | sixteen bytes of salt give the key, an identity of known length is skipped, and the symbols read are those of the peer |
| SnellPace.LimitInRange | internal/snell/v4.go:426-444 | every limit of every run is in 854..16383, no conversion to uint16 loses a bit, and the clamp in Write never acts |
| SnellPace.LimitNumbers | internal/snell/v4.go:426-444 | in numbers: the first limit fills 1460 bytes with salt, identity, 256 to 511 bytes of padding and 39 of overhead; 1421 after more than thirty seconds; else 1421 more than the last, up to 16383 |
| SnellPace.BurstLimit | internal/snell/v4.go:426-444 | without a pause the k-th limit is min(first + 1421k, 16383) |
| SnellPace.PiecesCover | internal/snell/v4.go:404-423 | the payloads Write cuts a byte string into are that string again |
| SnellPace.PieceSize | internal/snell/v4.go:404-423 | every piece is non-empty and within its limit, and every piece but the last fills it |
| SnellWriter.WriteFull | internal/snell/v4.go:513-525 | everything is written, or a prefix and an error; short writes alone never fail |
| SnellWriter.FirstFrameFits | internal/snell/v4.go:429-431 | the first data frame, with salt, identity and initial padding, takes at most 1460 bytes, and exactly 1460 when its payload fills the limit |
| SnellWriter.PauseFrameFits | internal/snell/v4.go:432-433 | so does the first data frame after more than thirty seconds |
| SnellWriter.V4Writer.constructor | internal/snell/v4.go:374-382 | given its draws, a new writer has sent nothing, starts from the zero nonce and pads its first frame by 256..511 bytes |
| SnellWriter.V4Writer.NextPayloadLimit | internal/snell/v4.go:426-444 | the limit and the new state are those of the pace, and one clock reading is taken |
| SnellWriter.V4Writer.Seal | internal/snell/v4.go:464-475 | header and payload are sealed under consecutive nonces, a zero chunk steps the nonce once, and the list of nonces used grows by exactly these, in turn |
| SnellWriter.SealsDiffer | internal/snell/v4.go:464-475 | no two of the first 2^96 seals of a writer share a nonce, whether their frames went out or failed |
| SnellWriter.V4Writer.Pad | internal/snell/v4.go:495-503 | what goes out is the ciphertext interleaved with padding of the length announced; it fails only when the random source does |
| SnellWriter.V4Writer.BuildFrame | internal/snell/v4.go:456-509 | the buffer is what the chunk adds to the wire, and the nonce ends where the log plus this chunk leaves it; it fails exactly for a missing identity, or when the random source does |
| SnellWriter.V4Writer.WriteFrame | internal/snell/v4.go:456-511 | on success the wire is exactly the chunks written; on every error it is a prefix of the wire with this chunk; oversized frames and padded zero chunks are refused exactly; over any schedule of short writes that makes progress it succeeds |
| SnellWriter.V4Writer.WritePacketFrame | internal/snell/v4.go:385-396 | one datagram is one chunk, padded only when it is the first frame and not empty; one within the limit is sent whenever the writer is ready |
| SnellWriter.V4Writer.WritePiece | internal/snell/v4.go:405-422 | one turn of Write's loop sends the next piece of the pace, and succeeds whenever the writer is ready |
| SnellWriter.V4Writer.Write | internal/snell/v4.go:398-424 | the whole input as data chunks cut by the pace, an empty input as one zero chunk; success or not, the count reported is the data of the chunks completed; on failure at most one more chunk is in part on the wire; it succeeds whenever the writer is ready |
| SnellReader.V4Reader.ReadFrame | internal/snell/v4.go:310-344 | outcome, nonce and remaining input are those of the frame format for every input, malformed input included |
| SnellReader.V4Reader.ReadBody | internal/snell/v4.go:323-343 | lengths, padding and payload are checked and undone in the order of the format |
| SnellReader.V4Reader.Read | internal/snell/v4.go:295-308 | each read hands out the next bytes of the stream, at most the buffer's size; a zero chunk only when nothing is buffered; an error only at the end of what decodes |
| SnellReader.V4Reader.ReadFull | internal/snell/v4.go:149-152 | exactly n bytes of the stream, or the shorter run that precedes a zero chunk or the end |
| SnellStream.JoinMeans | internal/snell/v4.go:385-424 | the chunks of any successful calls carry the calls' meanings, one zero mark per half-close |
| SnellStream.WireDelivers | internal/snell/v4.go:101-112 | from any part of the wire a peer that skips salt and identity gets a prefix of what was written, and from all of it exactly that |
| SnellStream.RunConserves | internal/snell/v4.go:295-308 | any run of reads, of any sizes, hands out what the stream has lost, in order |
| SnellStream.TransferExact | internal/snell/v4.go:295-424 | end to end: for any successful writes, packets and half-closes, any part of the wire and any read sizes, the reads are a prefix of what was written, marks included, and all of it once the wire is in and drained |
| SnellStream.PerformAll | internal/snell/v4.go:385-424 | the writer object's calls make such a run: while they succeed the wire is what their chunks encode to, and they all succeed over every schedule of short writes that makes progress, given randomness, an identity and packets within the limit |
| SnellStream.UnhinderedMeans | internal/snell/v4.go:385-424 | what that success needs: writes that progress, answers from the random source, an identity, packets of at most 16383 bytes |
| SnellStream.PerformAnyway | internal/snell/v4.go:385-424 | a caller that goes on after failed calls never makes two seals under one nonce, up to 2^96 |
| SnellStream.ReadAll | internal/snell/v4.go:295-308 | the reader object's reads make such a run |
| SnellLink.TakeData | internal/snell/v4.go:149-152 | taking n bytes off a stream that starts with n data bytes gives them, wherever the chunks were cut |
| SnellLink.TakeCut | internal/snell/v4.go:149-152 | taking more bytes than precede a zero chunk or the end gives nothing |
| SnellLink.ReplyAccepted | internal/snell/v4.go:153-156 | a tunnel reply is consumed as one byte and leaves the data |
| SnellLink.RepliesUnderstood | internal/snell/v4.go:140-170 | a reply of byte 0 opens the tunnel, 2 refuses with the code and message that follow, any other is unexpected; each is consumed exactly |
| SnellConn.ConnectRequestUnique | internal/snell/v4.go:226-242 | a CONNECT request determines host, port and reuse |
| SnellConn.ConnectUnderstood | internal/snell/v4.go:226-242 | a server that reads version 1, command 1 or 5, the host with its length and a big-endian port gets exactly the host, port and reuse asked for |
| SnellConn.Conn.InitReader | internal/snell/v4.go:101-112 | making the reader consumes the salt and changes nothing the holder can see |
| SnellConn.Conn.InitWriter | internal/snell/v4.go:92-99 | making the writer sends nothing; its salt, key and padding come from the draw made for it; it fails exactly when the random source does, and the next call tries again |
| SnellConn.Conn.ReadReply | internal/snell/v4.go:140-170 | the reply is read once; accepted, refused with its code and message, unexpected or broken, exactly as the stream says, across any chunk boundaries; the reply flag and the input left are exact, also after a reply cut by a zero chunk |
| SnellConn.Conn.Read | internal/snell/v4.go:114-129 | one step of the session: reply first, then the next bytes of the data, the peer's zero chunk as end of stream with the peer-closed flag, or an error; a reply that is not accepted is consumed exactly |
| SnellConn.Conn.Write | internal/snell/v4.go:131-138 | the stream sent gains exactly the bytes reported, on success and on failure; after an error at most one more chunk is in part on the wire; it succeeds when the connection is ready |
| SnellConn.Conn.Warmup | internal/snell/v4.go:174-201 | on a new connection or a used one: a PING is sent and a PONG consumed, the session is otherwise untouched; on a connection that is ready it succeeds exactly when a PONG comes |
| SnellConn.Conn.HalfClose | internal/snell/v4.go:204-212 | the stream sent gains one zero mark, or nothing on failure; the receiving side is untouched |
| SnellConn.Conn.ResetReply | internal/snell/v4.go:215-218 | both flags are cleared, no input is consumed and nothing is sent |
| SnellConn.Conn.WriteConnect | internal/snell/v4.go:226-242 | the stream sent gains the request, which a server written from the format reads as this host, port and reuse; a host over 255 bytes changes nothing |
| SnellPeer.ConnectionDelivers | internal/snell/v4.go:92-138 | whatever a connection has sent without an error, a peer that knows the key and the length of the identity reads whole, and from any part of it a prefix |
| SnellPeer.WriterOf | internal/snell/v4.go:92-99 | the writer of a connection has its salt and initial padding from the draw made for it, and its key from that salt |
| SnellConn.Conn.OutReadyMeans | internal/snell/v4.go:92-99 | what being ready to send needs |
| SnellConn.Conn.WritePacket | internal/snell/v4.go:250-260 | one datagram is one more frame with that payload; one that cannot fit is refused exactly, and sends nothing |
| SnellConn.Conn.ReadPacket | internal/snell/v4.go:263-285 | when something is buffered it is exactly that, and nothing is read; else exactly the next frame of the input: its payload, the zero chunk as end of stream, or an error, and the input left is what follows the frame |
| SnellPacket.PacketConn.WriteTo | internal/snell/udp.go:70-115 | a success is exactly one more frame, which decodes only to the address's destination and this payload; addresses that cannot be read, refused requests and oversized frames send nothing; on a connection that is ready exactly the rest is sent |
| SnellPacket.PacketConn.ReadFrom | internal/snell/udp.go:117-130 | the datagram, with its sender and cut to the caller's buffer, in what is buffered or else in the next frame, and the input left is what follows; none only when the peer has not answered, the stream has ended or broken, or the packet is no response |
| SnellPacket.ReadEach | internal/snell/udp.go:117-130 | successive reads give the datagrams of successive frames, one each, whatever follows on the wire, and leave what follows |
| SnellPacket.AnswerReceived | internal/snell/udp.go:117-130 | a server's answer is received with its address and port, and its payload up to the size of the buffer |
| Pool.PopSplits | internal/dialer/pool.go:158-173 | a pop closes the expired entries at the front, takes the first unexpired one and leaves the rest |
| Pool.PopTakesOldest | internal/dialer/pool.go:158-173 | on a list in order of idle time it takes the oldest entry idle for at most fifteen seconds, takes none only when all have been idle longer, and leaves no older one behind |
| Pool.PopByAge | internal/dialer/pool.go:158-173 | on any list: what it closes has been idle for more than fifteen seconds, what it takes has not, and nothing else is lost |
| Pool.PopKeeps | internal/dialer/pool.go:158-173 | the list stays in order, at most ten long, each entry with a use left |
| Pool.IdlePool.Pop | internal/dialer/pool.go:158-173 | the loop is the pop just described, it closes exactly the expired entries, in order, and hands out none idle for more than fifteen seconds |
| Pool.IdlePool.Put | internal/dialer/pool.go:175-186 | accepted exactly when fewer than two uses are made, the pool is open and holds fewer than ten; then last in the list |
| Pool.IdlePool.Close | internal/dialer/pool.go:120-129 | every idle transport is closed once, in order, and the list is empty for good |
| Pool.ClosedIsEmpty | internal/dialer/pool.go:120-129 | a closed pool holds nothing |
| PooledConn.PooledConn.CloseWrite | internal/dialer/pool.go:222-232 | the first call closes a transport that may not be reused, with the error of closing, or sends one zero chunk; later calls repeat its answer and change nothing |
| PooledConn.PooledConn.Close | internal/dialer/pool.go:234-260 | the transport goes back exactly when it may be reused, our zero chunk went out, the peer's was read, the deadline could be cleared and the pool accepts it; otherwise it is closed; the error is exactly that of the step that failed, and later calls repeat it and change nothing |
| PoolRuns.Step | internal/dialer/pool.go:60-186 | every action of warming, dialling, reading, writing, half-closing, closing a lease and closing the pool, a factory that finishes after Close included, keeps the invariant |
| PoolRuns.ExactlyOnePlace | internal/dialer/pool.go:60-186 | in every interleaving each transport ever made is in exactly one place: being warmed, just made, in a dial's hand, once in the idle list, with one lease, about to be closed, or closed |
| PoolRuns.EveryLeaseReadsItsOwnStream | internal/dialer/pool.go:222-260 | in every interleaving a lease reads a prefix of its own stream, and all of it once it has seen the end, however often the transport was used before |
| PoolRuns.IdleIsClean | internal/dialer/pool.go:175-186 | every idle transport has nothing unread and clear flags; at most ten, in order, each with a use left; none is ever taken more than twice |
| PoolRuns.EveryStreamSentWhole | internal/dialer/pool.go:92-115 | in every interleaving, what has been sent on a transport not being closed is the PING, then per lease and in order its CONNECT, what its holder wrote and one zero chunk; only the present lease may lack its own, and no ended lease had a failed write |
| PoolRuns.PooledOnlyAfterBothZeros | internal/dialer/pool.go:234-258 | a lease reaches the point of pooling only with its own zero chunk out and no failed write, the peer's zero chunk consumed, and all of its data read |
| PoolRuns.ClosedStaysEmpty | internal/dialer/pool.go:120-129 | once the pool is closed nothing is ever idle in it again |
| PoolRuns.ReuseHappens | internal/dialer/pool.go:92-258 | runs exist: a new transport is dialled, read to its end, closed, put back and taken again, and carries both streams |
| UdpHub.RegisterKeeps | internal/inbound/hub.go:59-77 | registration keeps the invariant and the exactness of the index |
| UdpHub.UnregisterKeeps | internal/inbound/hub.go:79-94 | so does unregistration |
| UdpHub.DispatchKeeps | internal/inbound/hub.go:149-207 | every dispatch, aliases included, keeps the invariant |
| UdpHub.DispatchIndexExact | internal/inbound/hub.go:189-200 | dispatch keeps the index exact if and only if the datagram is not from a pinned client under another zone |
| UdpHub.DispatchIsLinear | internal/inbound/hub.go:149-187 | dispatch is the rule without an index, told by addresses and ports alone (the live session whose client has them, else the only pending session that declared them, else with none of these the only pending session that declared nothing, else none) if and only if the index holds no dead session for the address; an exact index never does |
| UdpHub.IndexedUnique | internal/inbound/hub.go:193-198 | the order in which the index map is walked does not matter |
| UdpHub.WildcardsNeverClash | internal/inbound/hub.go:68-74 | with known peer addresses two pending wildcards never match one datagram |
| UdpHub.EveryHub | internal/inbound/hub.go:59-207 | in every reachable hub: nobody is pending twice, or pending and pinned; a pinned client is one its session allows; a known peer has at most one pending wildcard |
| UdpHub.HandedToItsClient | internal/inbound/hub.go:149-187 | over every run: a datagram handed to a session comes from the address and port of its client, who is the peer it expects and has the address and port it declared |
| UdpHub.NewClient | internal/inbound/hub.go:155-187 | over every run: a datagram whose address and port are no indexed client's goes to the only pending session that declared them, else to the only one that declared nothing, else to nobody; and who gets it is pinned to it |
| UdpHub.CanonicalRunExact | internal/inbound/hub.go:149-207 | while the clients' addresses have canonical text, every run keeps the index exact |
| UdpHub.ZonelessRunExact | internal/inbound/hub.go:149-207 | over every run whose datagrams come from addresses without zones the index is exact, and dispatch is the rule without one |
| UdpHub.PinnedThroughout | internal/inbound/hub.go:149-207 | over every run that does not unregister it, a pinned session stays live, keeps its client, and its client's datagrams reach it |
| UdpHub.UnregisterRemoves | internal/inbound/hub.go:79-94 | an unregistered session is out of the hub if and only if the index held it under its client's own text only |
| UdpHub.NeverReturned | internal/inbound/hub.go:149-187 | a session that is out of the hub is never handed out again, over every further run |
| UdpHub.UnregisterIsForGood | internal/inbound/hub.go:79-94 | after it is unregistered a session is handed out over no run at all if and only if the index held it under its client's own text only |
| UdpHub.AliasOutlives | internal/inbound/hub.go:189-200 | in every exact hub, an alias makes dispatch return its session even after that session is unregistered |
| UdpHub.AliasReachable | internal/inbound/hub.go:189-200 | the failure as a run from the empty hub: fe80::1, a known peer, registers, is heard through eth0 and then eth1, and is unregistered; its next datagram through eth1 is given to the dead session |
| UdpHub.UnregisterTwice | internal/inbound/hub.go:79-94 | a second unregister keeps the invariant if and only if no live session is pinned to the same client text by then |
| UdpHub.PacketHub.RegisterSession | internal/inbound/hub.go:59-77 | refused exactly when a wildcard of the same known peer is pending; otherwise the new session is last in the queue |
| UdpHub.PacketHub.UnregisterSession | internal/inbound/hub.go:79-94 | the compacting loop removes the session from the queue and its client's text from the index, for a session live or not |
| UdpHub.PacketHub.LookupPinned | internal/inbound/hub.go:189-200 | found by text, or by a walk that also adds the text; none only when no indexed client is the same address |
| UdpHub.PacketHub.PinLocked | internal/inbound/hub.go:202-207 | the session leaves the queue and is indexed under its client's text |
| UdpHub.PacketHub.Scan | internal/inbound/hub.go:155-176 | the walk over the queue counts the exact and the wildcard matches and remembers where one is |
| UdpHub.PacketHub.DispatchFrom | internal/inbound/hub.go:149-187 | result and new state are those of the dispatch rule, from every reachable state |
| Resolver.CloneIPs | internal/dialer/dest.go:152-158 | equal addresses in storage of their own |
| Resolver.DnsCache.Get | internal/dialer/dest.go:61-73 | a hit exactly when an unexpired answer is stored, equal to it, in storage that is not the cache's |
| Resolver.DnsCache.Put | internal/dialer/dest.go:75-86 | a non-empty answer is stored for sixty seconds in new storage, an empty one is ignored, other keys are untouched |
| Resolver.Lookups.Join | internal/dialer/dest.go:118-125 | the call in flight for the key, or a new one that the caller leads |
| Resolver.Lookups.Complete | internal/dialer/dest.go:130-132 | the answer is in buffers of the call's own and, copied, in the cache; no other call's answer changes |
| Resolver.Lookups.Wait | internal/dialer/dest.go:140-150 | the call's answer, in buffers that neither the call, the cache nor any other caller has |
| Resolver.Lookups.Scribble | internal/dialer/dest.go:152-158 | a caller may write anything into any buffer it was given or has handed in: every answer in the cache and in every call stays what it was |
| Resolver.Lookups.AskScribbleAsk | internal/dialer/dest.go:61-73 | a caller that overwrites all it got from the cache and from a call and asks both again gets the original answers |
| Resolver.OneFlightPerKey | internal/dialer/dest.go:118-137 | in every interleaving at most one lookup per key is on its way |
| Resolver.RemovesOwnEntry | internal/dialer/dest.go:133-135 | a finishing lookup takes exactly its own entry out of the table |
| Resolver.WaitersGetTheResult | internal/dialer/dest.go:140-150 | a waiter that sees its lookup complete gets that lookup's result, for its own key: a stored answer or a failure with none |
| Resolver.HitsAreFresh | internal/dialer/dest.go:61-86 | the cache hits exactly when an answer was stored in the last sixty seconds, and gives the latest one |
| Resolver.TwoShare | internal/dialer/dest.go:118-150 | runs exist: two callers share one lookup, both get its answer, and a third finds it in the cache |
| DnsWire.SkipNameLoop | internal/dialer/dest.go:566-583 | the loop ends for every input and finds where the name ends |
| DnsWire.SkipNameOf | internal/dialer/dest.go:545-583 | every name of labels ending in the root or a pointer is skipped exactly |
| DnsWire.IterAnswers | internal/dialer/dest.go:476-513 | for every byte string the loops end in range with the records of the message, or with the error of the first defect |
| DnsWire.AnswersRoundTrip | internal/dialer/dest.go:476-513 | parsing a serialised message gives exactly its answer records, whatever the names, questions and trailing bytes |
| DnsWire.ParseAAnswers | internal/dialer/dest.go:440-454 | the four-byte records of type A, in order |
| DnsWire.AddressesAre | internal/dialer/dest.go:440-454 | exactly the data of the records of type 1 with four bytes |
| DnsWire.IPv4HintsFromHTTPS | internal/dialer/dest.go:515-543 | the addresses of the well-formed ipv4hint parameters up to the first cut one |
| DnsWire.QuadsAre | internal/dialer/dest.go:532-540 | a hint parameter is cut into its addresses of four bytes with nothing left over |
| DnsWire.HintsRoundTrip | internal/dialer/dest.go:515-543 | from a serialised service binding, the addresses of its ipv4hint parameters, in order |
| DnsWire.ParseHTTPSIPv4Hints | internal/dialer/dest.go:456-469 | the hints of the records of types HTTPS and SVCB, in order, or the error of the message |
| DnsWire.BindingsRoundTrip | internal/dialer/dest.go:456-469 | from the records of any list of service bindings, all the hints they publish, in order |
| DnsWire.Publishable | internal/dialer/dest.go:456-469 | whatever fits its length fields is such a service binding |
| DnsWire.MergeIPv4 | internal/dialer/dest.go:289-309 | hints before A records, IPv4 only, each address once, by first occurrence |
| DnsWire.To4Means | internal/dialer/dest.go:293-297 | four bytes, or the last four of a mapped address, and nothing else, are an IPv4 address |
| DnsWire.FirstsOrdered | internal/dialer/dest.go:289-309 | what was met first is listed first |
| DnsWire.FirstsDistinct | internal/dialer/dest.go:289-309 | nothing is listed twice |
| DnsWire.LookupAAndHints | internal/dialer/dest.go:228-287 | the branches of the joint lookup, however its three waits end |
| DnsWire.LookupIsSafe | internal/dialer/dest.go:228-287 | a list is returned exactly when the A answer came and it, or hints that came, hold an IPv4 address; it then holds every address of the A answer, each once, nothing that was not answered, and hints that came in time first |
| DnsWire.PublishedIsDialled | internal/dialer/dest.go:228-309 | from two serialised responses to the list: the hints published, then the addresses published, each once |
| DnsWire.EncodeQuery | internal/dialer/dest.go:416-438 | one question and no records for the host's non-empty labels, which a server written from the standard reads as this identifier, these labels and this type; refused exactly when a label exceeds 63 bytes |
| DnsWire.QueryLabelsJoin | internal/dialer/dest.go:417-424 | the labels asked for are those that dots join to the host name, with or without a dot at its end |
| DnsWire.QueryUnderstood | internal/dialer/dest.go:416-438 | that server's reading: identifier, recursion desired, one question, type, class |
| DnsWire.LabelsRoundTrip | internal/dialer/dest.go:424-433 | a server reading the query back gets those labels |
| WebSocket.MaskInPlace | internal/dialer/ws.go:141-145 | the loop leaves at every position the exclusive or of its byte and the byte of the mask at its position mod 4 |
| WebSocket.XorBits | internal/dialer/ws.go:141-145 | the exclusive or, bit by bit: a bit of the result is 1 exactly when the two bits differ |
| WebSocket.ZeroMask | internal/dialer/ws.go:141-145 | a zero mask changes nothing |
| WebSocket.MaskTwice | internal/dialer/ws.go:141-145 | masking is its own inverse |
| WebSocket.FrameRoundTrip | internal/dialer/ws.go:100-161 | reading a written frame gives its payload for every mask, opcode, final bit and reserved bits up to 2^20 bytes, and a longer one is refused |
| WebSocket.ReaderIsRfc | internal/dialer/ws.go:100-161 | for every input the reader's frame is that of section 5.2 of RFC 6455 in literal numbers: lengths, mask, opcodes, the limit of 2^20 |
| WebSocket.FrameBytes | internal/dialer/ws.go:176-208 | a frame on the wire: final bit, reserved bits and opcode, mask bit and shortest length, mask, body |
| WebSocket.BodyBytes | internal/dialer/ws.go:194-199 | byte i of the body is byte i of the payload masked with byte i mod 4 of the mask |
| WebSocket.StreamRoundTrip | internal/dialer/ws.go:82-161 | over any mix of data, ping and pong frames, fragmented messages included: the data payloads joined, and each ping's payload to answer, in order |
| WebSocket.PlainMeans | internal/dialer/ws.go:129-140 | the opcodes of such frames |
| WebSocket.WSConn.WriteFrame | internal/dialer/ws.go:176-208 | on success exactly one more frame with this opcode and payload is on the wire, on failure a prefix of it |
| WebSocket.WSConn.ReadFrame | internal/dialer/ws.go:100-161 | outcome and remaining input are those of the format for every input; a ping is answered at once with its own payload |
| WebSocket.WSConn.Read | internal/dialer/ws.go:82-98 | the next bytes of the data stream; exactly one pong per ping met, with its payload; ends because every turn uses up input |
| WebSocketRuns.TurnsNeverMix | internal/dialer/ws.go:170-213 | in every interleaving of writers, with any failures, the wire is each turn's own part of its frame in lock order, whole for every turn reported as a success |
| WebSocketRuns.WritersEmitWholeFrames | internal/dialer/ws.go:170-213 | without failures the wire is whole frames in lock order, and a peer reads exactly their data and pings |
| WebSocketRuns.WholeUntilFailure | internal/dialer/ws.go:200-207 | the wire is the whole frames before the first failure, then the part the failing turn got out, whatever follows |
| WebSocketRuns.ReadsUntilFailure | internal/dialer/ws.go:82-161 | a peer reads all of the data and pings written before the first failure |
| WebSocketRuns.EveryoneCanWrite | internal/dialer/ws.go:170-213 | runs exist: any list of frames can be written turn by turn, each with success |
| WebSocketRuns.SendsCanFail | internal/dialer/ws.go:200-207 | a send may fail after any part of its piece, which is then on the wire |
| Tfo.TFOConn.Publish | internal/dialer/tfo.go:52-80 | a connection is left open only if it is taken, with both deadlines set; it is taken exactly when nobody has closed the object and both deadlines can be set |
| Tfo.TFOConn.Close | internal/dialer/tfo.go:129-141 | afterwards no connection is open, and nothing delivered or remembered has changed |
| Tfo.TFOConn.Write | internal/dialer/tfo.go:89-114 | the bytes delivered grow by exactly those reported; the first call succeeds exactly when the connection is taken, a later one when all is taken; nothing after Close |
| Tfo.TFOConn.Read | internal/dialer/tfo.go:116-127 | it dials without data, delivers nothing, and reaches the connection exactly when there is one that has not been closed |
| Tfo.TFOConn.SetDeadline | internal/dialer/tfo.go:163-175 | unless it reports a failure, a connection taken carries both deadlines from now on, and one taken later gets them |
| Tfo.DialledOnceAndNeverLeaked | internal/dialer/tfo.go:52-141 | in every interleaving the dial runs at most once, a connection not taken is closed, and one dialled is closed once Close and publish have both happened |
| Tfo.LatestDeadlines | internal/dialer/tfo.go:163-195 | for every run and either side: a connection taken carries the time the last setting action set, whether it was taken before or after it, except if that action failed on the connection taken (or, for the write side, was skipped because the read side failed); then it carries what it carried before |
| Tfo.NeverSet | internal/dialer/tfo.go:67-76 | a connection taken in a run that never sets a deadline carries none |
| Tfo.AlwaysLatest | internal/dialer/tfo.go:163-195 | in a run in which no deadline fails to be set, a connection taken carries the latest ones |
| Tfo.DeliveredOnceInOrder | internal/dialer/tfo.go:89-114 | in every interleaving the bytes on the connection are what the Writes report, one Write after another, each at most once, and every Write that reported a byte among them |
| Tfo.OrderGrows | internal/dialer/tfo.go:89-114 | later actions only add behind: to the list of Writes that reached the connection, and to the bytes on it |
| Tfo.ReturnedFirst | internal/dialer/tfo.go:89-114 | in every interleaving a Write that had returned, reporting a byte, before another was called has its bytes before those of the other |
| Tfo.OnlyWritersDeliver | internal/dialer/tfo.go:89-114 | whatever is on the connection comes from a Write that has reported it or is about to: the one that dialled or one that has just written |
| Tfo.SuccessIsDelivered | internal/dialer/tfo.go:89-114 | in every interleaving a Write that succeeds has put its whole data on the connection |
| Tfo.CallsGoOn | internal/dialer/tfo.go:89-127 | in every interleaving, once the dial is over: without a connection a call fails, the Write that dialled is done, any other Write goes to the connection, and a Read does as long as nobody has closed it |
| Tfo.DeliveryEndsWithClose | internal/dialer/tfo.go:129-141 | once Close and the dial are over nothing more is delivered, whatever callers do |
| Tfo.TwoWrites | internal/dialer/tfo.go:52-141 | runs exist: a Write dials with its data, a second follows on the same connection, Close closes it |
| UdpCodec.EncodeSOCKSUDP | internal/inbound/udp.go:199-233 | the datagram of RFC 1928 for the host and port an address names, from its fields or from its text, a long domain cut to 255 bytes |
| UdpCodec.ParseSOCKSUDP | internal/inbound/udp.go:161-197 | host, port and payload, or the error of the first defect, for every byte string |
| UdpCodec.SocksRoundTrip | internal/inbound/udp.go:161-233 | every host that text can name, every port and payload is read back |
| UdpCodec.SocksCuts | internal/inbound/udp.go:223-227 | a longer domain is read back as its first 255 bytes, never as itself |
| UdpCodec.ClientUnderstood | internal/inbound/udp.go:161-233 | what a client written from section 7 of RFC 1928 sends is read as it was meant, and what is sent to it has the same bytes |
| UdpCodec.SocksAccepts | internal/inbound/udp.go:161-197 | which byte strings are read: whole, unfragmented, of a known address type, with room for address and port |
| UdpCodec.TargetOf | internal/inbound/udp.go:199-216 | an address known by its text goes out as the host and port it was made from; text that cannot be split as no host and port zero |
| UdpCodec.LoosePorts | internal/inbound/udp.go:209-210 | a port text that is a number is taken modulo 2^16, any other is zero |
| UdpCodec.EncodeUDPRequest | internal/snell/udp.go:14-44 | refused exactly for a payload over the limit or a domain of 0 or over 255 bytes |
| UdpCodec.RequestRoundTrip | internal/snell/udp.go:14-44 | a request decodes to its destination, port and payload |
| UdpCodec.RequestFits | internal/snell/udp.go:14-44 | a request to an IP address always fits one frame; one to a domain does for every accepted payload if and only if the domain has at most 28 bytes |
| UdpCodec.ResponseRoundTrip | internal/snell/udp.go:46-68 | a response parses to its address (a mapped one as IPv4), port and payload |
| UdpCodec.ResponseAccepts | internal/snell/udp.go:46-68 | which answers are read: type 4 or 6 with room for address and port |
| UdpCodec.CanonMeans | internal/snell/udp.go:46-68 | sixteen bytes are an IPv4 address exactly behind ten zeros and two bytes of 255 |
| HostPort.JoinSplit | internal/inbound/udp.go:138-141 | for every host: joined with a port and split again it comes back if and only if it holds no bracket; wrapped in brackets it comes back without them; any other is refused |
| HostPort.JoinText | internal/inbound/udp.go:138-141 | in characters: a colon before the port, brackets around a host that holds a colon |
| HostPort.PortRoundTrip | internal/snell/udp.go:81-85 | a port printed in decimal is read back |
| HostPort.DecimalText | internal/snell/udp.go:81-85 | the decimal digits are those of the usual notation |
| HostPort.DigitsAre | internal/snell/udp.go:81-85 | the ten digits |
| HostPort.PortTexts | internal/snell/udp.go:81-85 | which texts are ports: digits after at most one sign, up to 65535, zero after a minus |
| HostPort.ScanIs | internal/inbound/udp.go:209-210 | the number read from a port text: the digits' value when they fit 64 bits, out of range as soon as they do not, whatever is behind that, and no number otherwise |
| HostPort.AtoiMeans | internal/inbound/udp.go:209-210 | a signed number within 64 bits is read as itself, one beyond as the nearest of these, anything else as zero |
| UdpCodec.DestinationOf | internal/snell/udp.go:70-87 | an IP address, and a domain if and only if it holds no bracket, survives its way through text; what becomes of every other domain |
| UdpCodec.RelayUp | internal/inbound/hub.go:120-134 | what the hub parses reaches the server in one frame, with its destination, port and payload, if and only if the payload is within the limit, the destination is an address or a non-empty domain without brackets, and a domain fits one frame with the payload |
| UdpCodec.BracketsChange | internal/snell/udp.go:70-87 | the domain "[10.0.0.1]" arrives as the address 10.0.0.1 |
| UdpCodec.RelayDown | internal/inbound/udp.go:199-233 | what the server answers reaches the client with its address, port and payload |
| DnsPolicy.LessIsStrictTotal | internal/profile/dns.go:84-97 | the rule order is a strict total order on patterns |
| DnsPolicy.PatternKinds | internal/profile/dns.go:99-117 | the three kinds of pattern: what follows "+." or "*." is the suffix, and exact comes before "+." before "*." |
| DnsPolicy.BeforeMeans | internal/profile/dns.go:96-96 | the last resort is byte order: the smaller byte at the first difference, or the shorter text |
| DnsPolicy.RulesFromMap | internal/profile/dns.go:66-82 | the trimmed, non-geo entries, stably sorted |
| DnsPolicy.RuleMeans | internal/profile/dns.go:70-77 | one entry gives one rule under its trimmed key, unless that is empty or begins with "geosite:" or "geoip:" |
| DnsPolicy.SortSorts | internal/profile/dns.go:78-81 | the sorted list is a permutation, and in order |
| DnsPolicy.OrderIndependent | internal/profile/dns.go:66-82 | for every map: the rule list is the same in whatever order its entries are visited if and only if no two entries give one trimmed pattern different servers |
| DnsPolicy.SortStable | internal/profile/dns.go:78-81 | the sort leaves the rules of each pattern in the order they came |
| DnsPolicy.OrderShows | internal/profile/dns.go:66-82 | a witness: two keys that trim to one pattern with different servers, in two orders |
| DnsPolicy.PlusMatchesByLabel | internal/dialer/dns.go:61-63 | the suffix comparison of "+." is membership in the domain, label by label |
| DnsPolicy.DomainMatchByLabel | internal/dialer/dns.go:54-69 | exact, at or under, and under, by labels, without regard to ASCII case |
| Text.SpacesAre | internal/dialer/dns.go:55-56 | what trimming removes on ASCII text |
| Text.LowerIs | internal/dialer/dns.go:55-56 | lower case letter by letter |
| Text.PrefixMeans | internal/dialer/dns.go:60-66 | prefixes and suffixes, character by character |
| Text.FoldMeans | internal/serve/emit.go:155-155 | texts equal but for case are equal place by place but for case |
| DnsPolicy.Match | internal/profile/dns.go:48-55 | the servers of the first rule that matches and has servers, or the fallback when none does |
| DnsPolicy.MatchOnMap | internal/profile/dns.go:48-117 | on one map the rule found belongs to an entry as specific as every other that serves the host: longest suffix, then exact before "+." before "*."; the fallback only when no entry serves it |
| SurgeGroups.SplitCSV | internal/serve/emit.go:341-361 | the loop cuts at the commas outside quotes and escapes, and trims |
| SurgeGroups.PlainCSV | internal/serve/emit.go:341-361 | without quotes and backslashes a list is cut at every comma, and trimmed |
| SurgeGroups.CommasInMembers | internal/serve/emit.go:346-357 | a comma between quotes or behind a backslash ends no member, and any other does |
| SurgeGroups.SplitJoin | internal/serve/emit.go:263-263 | a list joined and split comes back if and only if every member but the last is trimmed, closes its quotes and escapes and holds no comma outside them, and the last is trimmed and holds no such comma |
| SurgeGroups.CommaSplits | internal/serve/emit.go:254-263 | a witness: the member "a, b" comes back as two |
| SurgeGroups.ExpandGroup | internal/serve/emit.go:223-264 | the line is the expansion of its members; automatic groups and other lines are unchanged |
| SurgeGroups.ExpandedMembers | internal/serve/emit.go:235-262 | a select group without Block gets every mapping name; every group keeps its own members first and in order, the remote group replaced by the two automatic ones; nothing else is added |
| SurgeGroups.GetsNamesMeans | internal/serve/emit.go:235-254 | a group gets the names exactly when its kind is select and no member is Block, in any case |
| SurgeGroups.MembersOneByOne | internal/serve/emit.go:238-318 | member by member: oixCloud becomes the two automatic groups, any other stays; a name already there is not added; a member with an equals sign is an option |
| SurgeGroups.LineMeans | internal/serve/emit.go:322-328 | a group line is cut at its first equals sign, and without one is none |
| SurgeGroups.AutoMeans | internal/serve/emit.go:228-230 | which names are automatic groups |
| SurgeGroups.ExpandedLineReadsBack | internal/serve/emit.go:223-264 | a client that splits the expanded line sees the group's own name, and exactly those members if and only if they read back as a list |
| SurgeGroups.RewriteAutoGroup | internal/serve/emit.go:302-320 | kind, every mapping name, then the options the line had |
| SurgeGroups.AutoReadsBack | internal/serve/emit.go:302-320 | a client sees the same name, and exactly kind, mapping names and options if and only if they read back as a list |
| SurgeRewrite.RewriteSurge | internal/serve/emit.go:126-221 | the loop over the template writes the texts of the lines that the next lemmas are about |
| SurgeProfile.EachMappingOnce | internal/serve/emit.go:158-215 | for every template and list of mappings: the mappings' own lines stand in a proxy section of the output, all of them, once, in order and together, and every other line of a proxy section is blank, a comment, or begins with "direct ", "direct=", "block " or "block=" in any case |
| SurgeProfile.MappingsReplaceRemotes | internal/serve/emit.go:165-180 | when a proxy section of the template holds a line that is none of these, the mappings stand where the first such line stood, and no section is appended |
| SurgeProfile.StaysIsKept | internal/serve/emit.go:162-170 | which template lines stay in a proxy section, in literal text |
| SurgeProfile.Words | internal/serve/emit.go:137-155 | headings, sections, comments and the managed header, in literal text |
| SurgeProfile.AddedMeans | internal/serve/emit.go:330-338 | the automatic groups added, in literal text |
| SurgeProfile.PlainLines | internal/serve/emit.go:126-221 | everything else in the output, blank lines put in between aside, is the template in order: its headings, the lines it may keep, its groups expanded and its managed headers renewed, with a header before it if it has none and a proxy section behind it if no line of the template stood for a remote proxy |
| SurgeProfile.AutoGroupExactly | internal/serve/emit.go:145-208 | of each kind a client reads exactly one automatic group in the group sections of the output when some line of the template brings it, with the text that the first such line gives it; exactly the added one when none does and the template ends in a group section; and none otherwise |
| SurgeProfile.SpelledExactly | internal/serve/emit.go:145-151 | exactly one whenever a section is spelled "[Proxy Group]" |
| SurgeProfile.OtherSpellingMisses | internal/serve/emit.go:145-151 | a witness: to a section spelled otherwise and closed by another heading none is added |
| SurgeProfile.HeadingsByText | internal/serve/emit.go:145-155 | a client that tells headings by their text takes the sections of the output for what they are if and only if no mapping's line and no expanded group looks like a heading |
| SurgeProfile.ExpandedMisleads | internal/serve/emit.go:223-264 | a witness: an expanded group that looks like a heading by the last name it is given |
| SurgeProfile.HeaderFirst | internal/serve/emit.go:216-221 | every profile begins with a managed header |
| SurgeRewrite.LinesJoin | internal/serve/emit.go:216-216 | cut at its newlines the text gives back lines that hold none |

## Left out

- SnellPadding.MakePadding: real arithmetic in place of floating point, so that the choice of the target is not subject to rounding; the length and the range check hold for any rounding.
- SnellConn.Conn.InitReader: skips no identity prefix, as in the code; the server's side, which does, is `SnellFrame.SaltedSkip`.
- SnellConn.Conn.Warmup: the context and its deadline are not modelled.
- SnellConn.Conn.ReadReply: when the stream ends or breaks inside the reply, what later reads would find is not specified; the code gives the connection up.
- SnellConn.Conn.Read: after the stream has ended or broken, what later reads would find is not specified; holders stop there.
- SnellConn.Conn.ReadPacket: the reader's lock is not modelled; one reader at a time, as `PacketConn` ensures.
- SnellPacket.PacketConn.WriteTo: the text of an IP address is not modelled, only that parsing it gives the address.
- PoolRuns.Step: the three attempts of Dial, the deadline of each and the count of Warm are not modelled; every number of attempts is covered.
- PooledConn.PooledConn.MarkReusable: sets one flag, which `CloseWrite` reads.
- PooledConn.PooledConn.Close: the calls of one lease come one after another here; their interleavings are in PoolRuns.
- UdpHub.PacketHub.DispatchFrom: addresses that are not UDP addresses, which no UDP socket reports; sessions are numbers rather than shared pointers, and their channels are not modelled.
- Resolver.WaitersGetTheResult: what a lookup asks of which server, and in what time, is any answer or a failure; here answers are values, and their buffers are in `Resolver.Lookups`.
- Tfo.TFOConn.Close: cancelling the dial is not modelled; a dial may succeed or fail at any time.
- DnsPolicy.DomainMatchByLabel: ASCII case only; Unicode case folding is not modelled.
- DnsWire.LookupAAndHints: an answer comes or does not; the goroutines and timers behind that are inputs.
- SurgeRewrite.RewriteSurge: lines rather than one text cut and joined at newlines; the text of a mapping's line is any text.
- Cryptography, TLS with ECH, the exporter and the WebSocket upgrade: foreign libraries.
- The loop that reads the UDP socket, its retries, and the TCP side of an association.
- SOCKS5 and HTTP CONNECT handshakes, accept loops, keepalive.
- ParseNameserver, YAML and JSON decoding, the panel client, the other profile formats, the health checks.
- Real time, fairness, deadlock and other liveness.

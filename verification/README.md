# zx909-gw: a verified model

zx909-gw is a Go gateway for ZX909 / Topin trackers. It cuts `78 78 … 0D 0A` packets out of a TCP
byte stream whose length bytes cannot be trusted, parses them, answers the ones the device must have
answered, keeps one session per tracker and forwards data to ThingsBoard for the trackers that a
registry knows. This project models that behaviour in Dafny and proves what the gateway relies on.

| file | what it models |
|---|---|
| `Bytes.dfy`, `Numbers.dfy`, `Types.dfy`, `Crc.dfy` | fixed-width integers; CRC-16/X-25: the nested loops, the shift register they compute, error detection |
| `WifiLbs.dfy`, `WifiFraming.dfy`, `WifiRoundTrip.dfy` | the Wi-Fi/LBS header heuristic, parser and layout walk; when framing is immune to what follows; the round trip |
| `WifiNumbers.dfy`, `SixByteReports.dfy` | the same parser stated on offsets and numbers alone; round trips with six-byte cells |
| `Framing.dfy`, `FramingTheorems.dfy` | frame extraction; which frames come out, from which buffers |
| `WireFormat.dfy` | both kinds of frame stated byte by byte |
| `Stream.dfy`, `StreamTheorems.dfy`, `EncodedStreams.dfy`, `Resync.dfy` | the drain loop and the read loop; reassembly under any cutting of the stream into reads, for which bodies, and behind garbage |
| `Login.dfy`, `Gps.dfy`, `Toy.dfy` | login and fix parsers, the simulator's encoders, and the round trips between them |
| `Replies.dfy`, `RepliesOnTheWire.dfy`, `Handler.dfy`, `HandlerTheorems.dfy`, `Uplinks.dfy` | reply frames, also byte by byte; what one connection writes, and what it asks of the outside |
| `SessionMachine.dfy`, `SessionTheorems.dfy`, `SessionDisconnects.dfy`, `SessionFindings.dfy` | sessions and the uplink as interleaved steps; safety over every run; exactly when telemetry can follow a disconnect; runs that bound what can be claimed |
| `Sessions.dfy` | the same state as objects updated in place, each method proved to take exactly the machine's steps |
| `Registry.dfy` | the registration cache and the lookup behind it; staleness over every interleaving |

Loops, in-place arrays and mutable objects of the source are methods and classes here, each proved
equal to a specification function; the results are lemmas about those functions. `dafny verify
dfyconfig.toml` checks everything.

## What the proofs found

* **Garbage can cost the frame behind it** (`internal/protocol/frame.go:63-79`). If a read ends between
  the two bytes of a header and at least four bytes of garbage precede it, the headerless buffer is
  discarded and the frame is lost. If the garbage ends in the frame's own first byte, the search
  stops one byte early and the frame is lost too, unless the garbage was read alone and discarded.
  For a frame delivered in two reads `Resync.GarbageThenFrame` says that there is no other way.
* **A trailer pair in a MAC truncates a report** (`internal/protocol/frame.go:163-197`). As long as the
  cells are not all in view, the search starts right behind the datetime. A Wi-Fi/LBS frame with a
  0D 0A pair among its access points or in its header comes out whole from one read, but a read that
  ends behind the pair releases a truncated report (`EncodedStreams.PairBeforeCellsTruncates`,
  `EncodedStreams.MacIsTruncated`). `EncodedStreams.WifiSolidIff` says exactly which frames are safe.
* **Six-byte cells are framed only at the end of the data** (`internal/protocol/frame.go:182-197`).
  The comment promises a fallback to six-byte cells; it works exactly when fewer than count - 2
  bytes follow the frame, so never with another frame right behind it
  (`WifiFraming.SixByteCellsFramedIff`). A frame without cells is framed wrongly before
  exactly the tails that supply a header (`WifiFraming.HeaderlessFramedIff`).
* **An invalid BCD clock is accepted** (`internal/protocol/wifilbs.go:54`): hour, minute and second
  have no lower bound, so -1 passes (`WifiRoundTrip.NegativeClockIff`).
* **A connection that logs in under two identities leaves the first one's entry behind**
  (`internal/server/server.go:157-158`, `SessionFindings.SecondIdentityLeavesEntry`;
  `SessionTheorems.StaleIff` says exactly when).
* **Telemetry can follow a disconnect** with no new connect (`internal/server/server.go:157-161`,
  `internal/server/server.go:246-267`), in two ways. After a reconnect, the replaced connection
  announces the device as gone after the new one announced it as present
  (`SessionFindings.PublishAfterDisconnect`). And a goroutine that has looked its session up, such as
  the one resolving a report, can publish after the cleanup of the only connection
  (`SessionFindings.PublishOutlivesConnection`). `SessionDisconnects.UnannouncedIffExposed` gives the
  exact condition on the state; for a tracker that stays on one connection only the second way
  remains (`SessionDisconnects.AfterSoleConnection`, `SessionDisconnects.LatePublish`).
* **The classic acknowledgement carries its CRC high byte first**
  (`internal/protocol/frame.go:253-254`), so a check by residue succeeds only after swapping
  (`Replies.AckChecksOnlySwapped`).
* The repository's README lists mid-body `0D 0A` hardening as out of scope. The code has it in part:
  per-protocol minimums, and for Wi-Fi/LBS the layout walk, which protects a frame only once its
  cells are in view. The model follows the code.
* ErrBadLength, the empty-datetime and minimal-status fallbacks, and the wait-for-more-cells branch of
  the layout walk are out of reach.

## Model

| member | source | states |
|---|---|---|
| `Crc.CRC16X25` | `internal/protocol/crc.go:12-25` | the nested loops on a number compute the specified CRC |
| `Crc.CrcIsShiftRegister` | `internal/protocol/crc.go:3-25` | that number is a uint16 whose bits are the complement of the bit-serial shift register fed low bit first |
| `Crc.StepInjective` | `internal/protocol/crc.go:17-21` | one turn of the inner loop is injective on the 16-bit register |
| `Crc.FeedIsXorThenSteps` | `internal/protocol/crc.go:15-22` | feeding up to 16 bits one by one equals xoring them in at once and stepping |
| `Crc.BurstDetected` | `internal/protocol/crc.go:12-25` | two different messages of one length that agree outside 16 consecutive bits have different CRCs |
| `Crc.SeventeenBitBurstMissed` | `internal/protocol/crc.go:12-25` | 16 is the best bound: the generator's pattern, anywhere in a message, is not detected |
| `Crc.CrcParity` | `internal/protocol/crc.go:12-25` | the CRC has the bit parity of the message |
| `Crc.OddFlipsDetected` | `internal/protocol/crc.go:12-25` | any odd number of flipped bits changes the CRC |
| `Crc.CrcAffine` | `internal/protocol/crc.go:12-25` | the CRC of the exclusive or of three equally long messages is that of their CRCs |
| `Crc.ResidueIffOwnCrc` | `internal/protocol/crc.go:12-25` | two appended bytes leave the loops' register at 0xF0B8 exactly when they are the message's CRC, low byte first |
| `WifiLbs.FindLBSHeader` | `internal/protocol/wifilbs.go:117-135` | returns the first position with count 1 to 6, MCC 1 to 999 and room for its cells at six bytes each, or -1 if there is none |
| `WifiLbs.ParseWifiLBS` | `internal/protocol/wifilbs.go:44-114` | the parser with its branches computes the specified report or the one error |
| `WifiLbs.ParseWifis` | `internal/protocol/wifilbs.go:71-79` | the access points are the groups of seven bytes before the header |
| `WifiLbs.ParseCells` | `internal/protocol/wifilbs.go:81-111` | the cells are decoded in order at the cell size that the space left dictates |
| `WifiLbs.CellCount` | `internal/protocol/wifilbs.go:91-110` | with room for n cells exactly n are read |
| `WifiLbs.WifiCount` | `internal/protocol/wifilbs.go:71-79` | a seventh of the bytes, rounded down, are access points |
| `WifiNumbers.HeaderInNumbers` | `internal/protocol/wifilbs.go:117-135` | the search returns s iff s is the first offset with a byte of 1 to 6, a big-endian value of 1 to 999 and room for the cells at six bytes each, or -1 iff there is none |
| `WifiNumbers.NoCountryCodeNoCells` | `internal/protocol/wifilbs.go:123-127` | where no byte of 1 to 6 is followed by a value of 1 to 999, the whole body is access points, seven bytes each, and no cells |
| `WifiNumbers.ParseInNumbers` | `internal/protocol/wifilbs.go:44-114` | for every body: the access points by offset, and count, operator, area code, identity and signal of each cell by offset, at seven bytes each if they fit and else at six |
| `WifiNumbers.TimeInNumbers` | `internal/protocol/wifilbs.go:51-59` | digits in range are read as digits, anything else as the six bytes in order |
| `Framing.FindTrailer` | `internal/protocol/frame.go:201-211` | finds the end of the first trailer pair at or after the bound, or -1 if there is none |
| `Framing.WifiLBSContentBounds` | `internal/protocol/frame.go:163-197` | a header found always gives an exact length; the early returns and the wait branch are out of reach |
| `FramingTheorems.SearchFromBounds` | `internal/protocol/frame.go:140-197` | the search for a trailer never starts before the protocol's minimum; it starts exactly there, except that with a Wi-Fi/LBS header in view it starts behind the cells, inside the content |
| `Framing.ExtractFrame` | `internal/protocol/frame.go:58-133` | the header loop, the switch and the branches computes one rule: resynchronise, wait, or cut at the first trailer from the search bound on |
| `Framing.ExtractContent` | `internal/protocol/frame.go:105-132` | the exact-trailer, fallback and minimum branches are one search from a single bound |
| `WireFormat.ProtocolNumbers` | `internal/protocol/frame.go:140-159` | the fix and report protocols and the least body lengths, by number |
| `WireFormat.OutcomeInBytes` | `internal/protocol/frame.go:58-133` | for every buffer, in bytes: below five it waits; without a start pair it drops everything, else everything up to the first one; at a start it waits or takes a prefix ending in 0D 0A with the protocol from byte 3 or 4 |
| `WireFormat.ShortFrameInBytes` | `internal/protocol/frame.go:87-91` | 78 78, length byte, protocol, body, 0D 0A comes out as that protocol and body before every tail iff the body has the least length and no 0D 0A from there on |
| `WireFormat.ExtendedFrameInBytes` | `internal/protocol/frame.go:93-100` | the same for 79 79 with two length bytes |
| `WireFormat.ReportInBytes` | `internal/protocol/frame.go:163-197` | every report of either kind before every tail: right iff it holds no 0D 0A from behind the cells of the first header in view, or from behind the datetime |
| `WireFormat.WifiFramesInBytes` | `internal/protocol/frame.go:163-197` | right before all tails iff the first count and country code in the body has its seven-byte cells inside and no 0D 0A behind them |
| `FramingTheorems.ExtractShape` | `internal/protocol/frame.go:58-133` | incomplete keeps a buffer that is short or starts with a header; skipped bytes hold no header start; a frame is a prefix from header to trailer; no other error occurs and 1 to all bytes are consumed |
| `FramingTheorems.BodyAtLeastMinimum` | `internal/protocol/frame.go:135-159` | no frame from any buffer is shorter than its protocol's minimum |
| `FramingTheorems.FramedIffOwnTrailer` | `internal/protocol/frame.go:105-132` | an encoded frame comes out, whatever follows, iff the first trailer from its search bound on is its own |
| `FramingTheorems.FramedIffClean` | `internal/protocol/frame.go:140-211` | outside Wi-Fi/LBS: iff the body has the minimum length and no trailer pair from there on |
| `FramingTheorems.PrefixIsIncomplete` | `internal/protocol/frame.go:58-133` | no strict prefix of such a frame releases anything |
| `FramingTheorems.ExtensionStable` | `internal/protocol/frame.go:81-133` | outside Wi-Fi/LBS, bytes appended to any buffer never change a frame already found |
| `FramingTheorems.HeaderMonotone` | `internal/protocol/wifilbs.go:117-135` | a header in a prefix is one in every extension |
| `FramingTheorems.HeaderInPrefix` | `internal/protocol/wifilbs.go:117-135` | the header found in a buffer is found at the same place in any prefix that holds its cells; none in the buffer means none in a prefix |
| `FramingTheorems.FramingAgreesWithParsing` | `internal/protocol/frame.go:163-197` | for every Wi-Fi/LBS frame from any buffer the parser finds the header iff framing did, at the same place, with the same count and cell size, and yields exactly count cells |
| `FramingTheorems.NothingLeftOver` | `internal/protocol/frame.go:107-117` | on the exact-trailer path no body byte remains after the last cell |
| `WifiFraming.FramedWhateverFollowsIffImmune` | `internal/protocol/frame.go:163-197` | a Wi-Fi/LBS frame is cut correctly before every tail iff its first plausible header has its seven-byte cells inside the body and no trailer pair behind them |
| `WifiFraming.SixByteCellsFramedIff` | `internal/protocol/frame.go:182-197` | six-byte cells are framed correctly iff fewer than count - 2 bytes follow |
| `WifiFraming.HeaderlessFramedIff` | `internal/protocol/frame.go:168-179` | without a plausible header in the body: correct before a tail iff the body has no trailer pair behind the datetime and the tail supplies no header |
| `WifiRoundTrip.TimeBack` | `internal/protocol/wifilbs.go:51-59` | every valid BCD datetime is parsed back |
| `WifiRoundTrip.NegativeClockIff` | `internal/protocol/wifilbs.go:52-58` | exactly which datetimes come out with a negative clock field |
| `WifiRoundTrip.RoundTripIff` | `internal/protocol/wifilbs.go:44-114` | encode, extract, parse returns exactly the values, whatever follows and whatever trailer pairs the fields hold, iff no earlier position looks like a header |
| `SixByteReports.RoundTripInNumbers` | `internal/protocol/wifilbs.go:117-135` | the same, with the condition in numbers: no byte of 1 to 6 among the access points is followed by a value of 1 to 999 |
| `SixByteReports.NarrowParseBack` | `internal/protocol/wifilbs.go:97-101` | a report encoded with six-byte cells is parsed back exactly when nothing fits earlier |
| `SixByteReports.NarrowRoundTrip` | `internal/protocol/frame.go:182-197` | and comes back from extraction as well iff fewer than count - 2 bytes follow |
| `Stream.DrainConserves` | `internal/server/server.go:183-216` | the input is the frames' bytes and the skipped bytes in order, then the residual; no header starts in skipped bytes; the residual is short or starts with a header |
| `Stream.DrainIdempotent` | `internal/server/server.go:183-216` | draining again changes nothing |
| `Stream.DrainPrefix` | `internal/server/server.go:183-216` | of a stream of solid frames, one drain takes exactly the frames that have arrived whole |
| `Stream.ChunkingIndependence` | `internal/server/server.go:168-216` | for every cutting into reads, after any number of reads exactly the frames that arrived whole have been handled, in order, and the buffer holds the rest |
| `Stream.WholeStream` | `internal/server/server.go:168-216` | once all bytes arrived, all frames were handled and the buffer is empty |
| `StreamTheorems.SolidIffSurvives` | `internal/protocol/frame.go:58-211` | a frame is solid iff its body is immune or of minimum length, and none of its trailer pairs lies at or behind the search bound seen by a read that ends with the pair |
| `EncodedStreams.NoEarlyTrailerIff` | `internal/protocol/frame.go:163-197` | for Wi-Fi/LBS the second half says: at each pair behind the datetime, the bytes up to and including it show a header whose cells cover the pair's first byte |
| `EncodedStreams.WifiSolidIff` | `internal/protocol/frame.go:163-197` | a Wi-Fi/LBS frame is solid iff it is immune and each of its trailer pairs is covered by cells in that way |
| `EncodedStreams.ImmuneAndCleanSurvives` | `internal/protocol/frame.go:163-197` | an immune body without a trailer pair behind the datetime meets that condition |
| `EncodedStreams.PairBeforeCellsTruncates` | `internal/protocol/frame.go:163-197` | an immune body with a trailer pair between datetime and first cell does not: a read that ends behind the pair releases something else |
| `EncodedStreams.EncodedStream` | `internal/server/server.go:168-216` | any list of encoded frames with surviving bodies, cut into reads in any way, is handled frame by frame as the frames arrive whole |
| `EncodedStreams.CleanStream` | `internal/server/server.go:168-216` | clean bodies suffice: minimum length and no trailer pair from there on, for Wi-Fi/LBS immunity as well |
| `EncodedStreams.RoundTripsYetTruncated` | `internal/protocol/frame.go:163-197` | a valid report with such a pair comes back from every buffer that starts with it, and is truncated by a read that ends behind the pair |
| `EncodedStreams.MacIsTruncated` | `internal/protocol/frame.go:163-197` | every valid report with one access point whose MAC starts with 0D 0A and whose other bytes exceed six is of this kind |
| `StreamTheorems.SurvivesIffClean` | `internal/protocol/frame.go:140-159` | outside Wi-Fi/LBS that condition is the minimum length and no trailer pair from there on |
| `StreamTheorems.SolidIffAlwaysFirst` | `internal/server/server.go:168-216` | a frame is recovered from every cutting into reads, with anything behind it, iff it is solid |
| `Resync.GarbageThenFrame` | `internal/protocol/frame.go:63-79` | a solid frame behind any garbage without a header pair, delivered in two reads, is recovered iff: when the garbage ends in the frame's first byte, five or more bytes of it are read alone; otherwise, the cut is not between the header bytes with four or more bytes of garbage before |
| `Login.ParseLogin` | `internal/protocol/login.go:13-46` | the digit loop and the trimming compute the specified identity or the one error |
| `Login.AlwaysFifteenDigits` | `internal/protocol/login.go:13-46` | eight bytes or more always give exactly fifteen decimal digits; fewer always fail |
| `Login.ImeiInNibbles` | `internal/protocol/login.go:18-45` | for every block: nibbles above nine count as zero; the last fifteen if the first counts as zero, else the first fifteen |
| `Login.ImeiToBCD` | `cmd/toy/main.go:164-178` | the array loop packs the digit pairs; any length but 15 or 16 is fatal |
| `Login.ImeiRoundTrip` | `internal/protocol/login.go:13-46` | every fifteen-digit IMEI is parsed back from its block, whatever follows |
| `Login.BlockRoundTripIff` | `cmd/toy/main.go:164-178` | a block is rebuilt from its parsed digits iff it is BCD with a leading zero nibble |
| `Toy.GpsRoundTrip` | `cmd/toy/main.go:120-156` | a built fix parses back with less than 1/1,800,000 degree lost per coordinate; the heading is exact iff below 1024, the speed iff below 256, the clock iff its fields fit in bytes |
| `Gps.FixInNumbers` | `internal/protocol/gps.go:39-78` | every field of every body of eighteen bytes or more, for every info byte and course/status word; shorter ones are errors |
| `Gps.ShortStatus` | `internal/protocol/status.go:25-56` | in shorter status bodies what is missing is zero, and an empty one is an error |
| `Gps.StatusBack` | `internal/protocol/status.go:25-56` | the four fields of a status body come back, a battery above 100 as unknown, the zone as a signed byte, whatever follows |
| `Toy.GpsParsed` | `internal/protocol/gps.go:39-78` | the parsed fields are the encoded raw coordinates in degrees, the heading modulo 1024, the speed and clock fields modulo 256; nonzero coordinates make it valid |
| `Toy.SentIsMinimal` | `cmd/toy/main.go:105-162` | each simulator packet is an encoded frame whose body has exactly its protocol's minimum length |
| `Toy.SimulatorStream` | `cmd/toy/main.go:105-162` | any list of simulator packets, cut into reads in any way, is recovered exactly |
| `Replies.BuildDatetimeACK` | `internal/protocol/frame.go:279-290` | the filled buffer is the datetime acknowledgement, with zeros for a short datetime |
| `Replies.BuildTimeSyncReply` | `internal/protocol/commands.go:12-26` | the filled buffer is the time reply |
| `Replies.BuildACK` | `internal/protocol/frame.go:247-257` | the filled buffer is header, covered bytes, their CRC high byte first, trailer |
| `Replies.AckChecksOnlySwapped` | `internal/protocol/frame.go:253-254` | the check bytes give the good-FCS residue after swapping, and as sent iff they are equal |
| `RepliesOnTheWire.RepliesInNumbers` | `internal/server/server.go:291-411` | who is answered and with which bytes, by protocol number |
| `RepliesOnTheWire.TimeReplyInBytes` | `internal/protocol/commands.go:12-26` | the bytes of the time reply read back as year, month, day, hour, minute, second |
| `RepliesOnTheWire.TimeReplyExtractedIff` | `internal/protocol/commands.go:12-26` | the decoder takes the time reply for a whole frame iff no field is 13 with 10 in the next |
| `RepliesOnTheWire.LoginReplyIsNoLogin` | `internal/protocol/frame.go:262-264` | the login reply is never taken for a login |
| `RepliesOnTheWire.SettingsExtracted` | `internal/protocol/commands.go:32-44` | the settings reply is a whole frame, whatever follows |
| `RepliesOnTheWire.DatetimeReplyExtracted` | `internal/protocol/frame.go:279-290` | its bytes; the reply to a fix is never taken for a fix, the reply to a report for a report iff what follows supplies no header |
| `Handler.Connection.HandleFrame` | `internal/server/server.go:291-411` | the events of one frame, per protocol and answer of the world, and the identity after it |
| `Handler.Connection.PublishTelemetry` | `internal/server/server.go:246-289` | check, connect if not yet connected, publish; stops at the first refusal |
| `Handler.Connection.DrainFrames` | `internal/server/server.go:183-216` | terminates on every buffer, and handles exactly the frames of the specified drain, in order |
| `Handler.Connection.OnRead` | `internal/server/server.go:168-180` | one read appends and drains: buffer, identity and events afterwards |
| `Handler.Connection.Serve` | `internal/server/server.go:168-180` | any number of reads: buffer, identity and events afterwards are those of the frames fed |
| `HandlerTheorems.FramedBodiesParse` | `internal/protocol/frame.go:279-307` | every login, status, GPS or Wi-Fi/LBS frame from any buffer parses; the datetime reply repeats the first six body bytes, the status reply the frame |
| `HandlerTheorems.RunWrites` | `internal/server/server.go:291-411` | what a connection writes is one reply per must-reply frame, from the frame and the clock alone |
| `HandlerTheorems.AckIndependence` | `internal/server/server.go:291-411` | two runs with the same frames and clock write the same, whatever registry, ThingsBoard and geolocation answer |
| `HandlerTheorems.RunAttributed` | `internal/server/server.go:291-411` | each registry check, connect, publish and started goroutine of a connection is for the identity of its last login before it; none comes before a login |
| `Uplinks.RunCalls` | `internal/server/server.go:291-411` | over every run the calls to the outside are, in order, exactly those due: registration and connecting goroutine per login; check, connect if not flagged, publish if cleared per logged-in fix, battery or ICCID frame; one locating goroutine per logged-in report with geolocation on |
| `Uplinks.RunPublishes` | `internal/server/server.go:246-289` | the publishes are, in order, one for the identity in force per frame with data that is approved and flagged or connected |
| `Uplinks.RunOrderly` | `internal/server/server.go:246-304` | each publish stands right behind its approval or the connect behind it; each registration is followed by the login reply and the connecting goroutine |
| `HandlerTheorems.SimulatorReplies` | `internal/server/server.go:143-216` | from bytes to replies: any simulator session, cut in any way, gets exactly the expected answers |
| `SessionMachine.StepKeepsListing` | `internal/server/server.go:465-488` | every step keeps: the table points to sessions of its key, handlers own their session, and every live connection is the one listed |
| `SessionTheorems.StepKeepsUplink` | `internal/server/server.go:232-289` | every step keeps: a set flag, a dialled or a sending goroutine has the approvals and connects behind it |
| `SessionTheorems.StepKeepsInv` | `internal/server/server.go:143-488` | every step of every connection and goroutine keeps the whole invariant |
| `SessionTheorems.OneLiveConnection` | `internal/server/server.go:465-480` | in every run at most one open, reading connection is logged in as a tracker, and it is the one in the table |
| `SessionTheorems.UplinkIsSafe` | `internal/server/server.go:232-289` | in every run each publish follows an approval in the same call and a successful connect for that tracker; each connect follows an approval; each disconnect follows a successful connect |
| `SessionTheorems.TableExactly` | `internal/server/server.go:465-488` | in every reachable state the table holds, per tracker, the last registration unless its connection removed it as its own last |
| `SessionTheorems.StaleIff` | `internal/server/server.go:156-166` | a cleaned-up connection is still listed under k iff it made the last registration for k and registered another identity after that |
| `SessionTheorems.NoStaleSessions` | `internal/server/server.go:520-528` | if no connection uses two identities, a downlink only picks a connection whose handler still runs and is logged in as that tracker |
| `SessionFindings.SecondIdentityLeavesEntry` | `internal/server/server.go:300-301` | a run, for any two identities, that ends with a listed connection whose handler has finished |
| `SessionDisconnects.UnannouncedIffExposed` | `internal/server/server.go:246-289` | from every reachable state, goroutine t can publish for k before anyone connects k iff it is past its table lookup with nothing left to connect, or has it to come while the table names a session that counts as connected |
| `SessionDisconnects.AfterSoleConnection` | `internal/server/server.go:156-166` | once the only connection that registered k has removed its session, those are exactly the goroutines past their lookup, whatever happens next |
| `SessionDisconnects.LatePublish` | `internal/server/server.go:156-166` | in every run with k on one connection, a publish behind a disconnect with no connect between comes from a goroutine that existed at the disconnect and stood past its lookup |
| `SessionFindings.PublishAfterDisconnect` | `internal/server/server.go:156-166` | a run with a reconnect, for any identity, that publishes after a disconnect without a new connect |
| `SessionFindings.PublishOutlivesConnection` | `internal/server/server.go:391-393` | such a run on one connection, with a goroutine that read the flag before the cleanup |
| `Sessions.Server.Accept` | `internal/server/server.go:108-131` | a new connection object, open and reading |
| `Sessions.Server.RegisterSession` | `internal/server/server.go:465-480` | a fresh session in the table; the connection of the entry it replaces is closed unless it is the same |
| `Sessions.Server.LogIn` | `internal/server/server.go:292-304` | the objects after a login are what the machine shows after that step, and a connecting goroutine exists |
| `Sessions.Server.RemoveSession` | `internal/server/server.go:482-488` | removes the entry only if it is this very session |
| `Sessions.Server.CleanUp` | `internal/server/server.go:144-166` | the deferred steps in order: removal, disconnect iff the session was connected, close |
| `Sessions.Server.UplinkAllowed` | `internal/server/server.go:232-242` | an empty identity is refused, a disabled registry approves, otherwise its answer decides; one step |
| `Sessions.Server.EnsureTBConnected` | `internal/server/server.go:246-267` | its result, its calls and its steps for every answer; a connected session is not announced again |
| `Sessions.Server.PublishTelemetry` | `internal/server/server.go:269-289` | the calls and steps of one publish; nothing before a login |
| `Sessions.Server.MaybeConnectTB` | `internal/server/server.go:413-429` | announces once approved, and marks the session iff that succeeded |
| `Sessions.Server.SendToDevice` | `internal/server/server.go:520-528` | the connection of the tracker's own entry, or offline iff there is none |
| `Sessions.Server.OneConnectionPerTracker` | `internal/server/server.go:465-488` | of the objects, after any calls: two open reading connections holding sessions for one tracker are one |
| `Sessions.Server.CallsAreSafe` | `internal/server/server.go:232-289` | of the objects, after any calls: telemetry only after an approval and a successful connect for that tracker, a disconnect only after a successful connect |
| `Registry.PaapeliClient.CacheGet` | `internal/registry/paapeli.go:85-93` | a hit iff there is an entry and the time is not past its expiry |
| `Registry.PaapeliClient.CacheSet` | `internal/registry/paapeli.go:95-110` | stores the answer with its own TTL, or 30 minutes / 60 seconds when that is not positive |
| `Registry.PaapeliClient.Fetch` | `internal/registry/paapeli.go:112-150` | the outcome, the token held afterwards and the exact requests: at most one retry after a 401, with a newly granted token |
| `Registry.PaapeliClient.EnsureToken` | `internal/registry/paapeli.go:152-202` | a held token is reused; otherwise one login, which must grant a token |
| `Registry.PaapeliClient.IsRegistered` | `internal/registry/paapeli.go:69-83` | hits make no request; on a miss the answer and the cache follow the status codes, and requests and token left are the lookup's; errors answer false and are not cached; answers are cached |
| `Registry.RequestsAreBounded` | `internal/registry/paapeli.go:112-202` | at most four requests, tracker requests only with a token, an answer only from a last tracker request with the token that is left |
| `Registry.ResultInStatusCodes` | `internal/registry/paapeli.go:112-150` | a lookup answers b iff a token is held or granted and the tracker reply says b: 404 for no, or a 2xx with a body; after a 401 a new token and the second reply |
| `Registry.RequestsInStatusCodes` | `internal/registry/paapeli.go:112-202` | the requests and the token left, in each of those cases |
| `Registry.AnswersAreBacked` | `internal/registry/paapeli.go:69-110` | every answer of every interleaving was the remote's within TTL plus latency; failures answer false |
| `Registry.TrueIsRecent` | `internal/registry/paapeli.go:85-110` | a true answer at t: the remote said registered no earlier than t less positive TTL and latency, and no later than t |
| `Registry.TrueCanBeThatOld` | `internal/registry/paapeli.go:85-93` | that bound is met |
| `Registry.SettledAnswersFollow` | `internal/registry/paapeli.go:69-110` | once the remote has settled on an answer, every lookup that does not fail gives it after the opposite TTL and the latency |
| `Registry.TrueWithinPositiveTime` | `internal/registry/paapeli.go:95-110` | a true answer is at most the configured positive time plus latency old; half an hour if none is configured |
| `Registry.PositiveTimeIsMet` | `internal/registry/paapeli.go:85-110` | and can be that old |
| `Registry.ClaimIsFollowed` | `internal/registry/paapeli.go:95-110` | a tracker registered for good is answered true once the configured negative time and the latency have passed; a minute if none is configured |
| `Registry.ReleaseIsFollowed` | `internal/registry/paapeli.go:95-110` | one unregistered for good is answered false once the positive time and the latency have passed |
| `Registry.NegativeTimeIsMet` | `internal/registry/paapeli.go:85-110` | a false answer can be as old as the negative time plus latency |

## Left out

- Sockets, deadlines, read errors other than as one step, HTTP and MQTT transport: the remote answers are inputs and the calls are events.
- Write failures and timing; a reply is modelled as attempted.
- JSON, YAML, configuration defaults outside the cache, logging, text formatting, the debug REST API and ListSessions.
- The downlink command builders and the RPC switch: constants and clamps only.
- ICCID text filtering: whether a body has printable text is an input.
- MAC formatting: a MAC is six bytes. Calendar normalisation by time.Date and its zero-time fallback: a time is its six arguments.
- Floating point: coordinates are exact reals.
- Geolocation results: the goroutine that resolves a report is an event in `Handler`, and one more publishing goroutine in `SessionMachine`.
- LastSeen, Remote, Connected times; Shutdown and the wait group.
- An approval in `SessionMachine` and `Sessions` is the decision of uplinkAllowed; whether the registry was asked for it follows from the setting and is not recorded.
- Handler.Connection.PublishTelemetry: takes whether the session counts as connected as an input; `Sessions.Server.PublishTelemetry` reads it from the table.
- The two halves of `ExtractFrame`, and the loops and their bodies inside `ParseWifiLBS` and `ParseLogin`, are methods of their own.
- Resync.GarbageThenFrame: covers a frame delivered in two reads; more reads in front of the frame are not.
- The steps of `SessionMachine` are lock sections and outside calls; a handler's variables change in the step that registers the session, and publishing goroutines may run beside their handler, which allows more interleavings than the code has.
- Toy.GpsRoundTrip: does not cover coordinates beyond 32 bits after scaling, where Go leaves the conversion undefined.
- Registry.TrueIsRecent: takes the time from a remote answer to its being cached as a parameter, which the code bounds only by its timeouts; zero gives atomic lookups.

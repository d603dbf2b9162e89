# camloc in Dafny

camloc locates an object on a plane with several cameras that watch an
ArUco marker. A *client* runs on each camera host and reports what it sees.
The *server* keeps a table of the connected clients and computes a
position from their reports. The *organizer* finds hosts on the network,
configures the clients and starts the server. The components speak small
binary protocols over UDP and TCP, and the server's example program writes
its events to a Java viewer.

This project models the discrete parts of those protocols and of the state
machines that consume them, and proves properties about them:

- **Wire** (`wire.dfy`): bytes, big-endian integers and doubles, UTF-8
  validity, decimal and IPv4 address text, and byte streams.
- **Records**:
  - the 24-byte `Position` (`positions.dfy`);
  - the calibration record `FullCameraInfo` (`camera_info.dfy`);
  - the `GenerationalValue` (`generational.dfy`);
  - the `TimeValidated` value and the console prompts (`common_lib.dfy`).
- **Host status and commands**:
  - the status byte and command datagrams of the common crate (`common_hosts.dfy`);
  - the older copy in `src/hosts.rs` (`legacy_hosts.dfy`);
  - the server lookup over a host table (`host_table.dfy`);
  - address templates for the scan (`scanning.dfy`).
- **The server** (`service.dfy`): the `Builder`, and the background task's
  dispatch over the client table (Connect, ValueUpdate with the oldest-client
  rule, InfoUpdate, ClientDisconnect, Stop). Also `get_position` and
  `set_motion_hint`.
- **The extrapolator** (`extrapolations.dfy`): the two-slot ring buffer. It
  has a copy in the server crate and one in the root crate.
- **The organizer** (`organizer.dfy`): its host table, the scan merge,
  `stop_host`, the image loop, image framing and the configuration it
  writes to a client.
- **The client** (`client.dfy`): it parses that configuration, waits for
  Start, then runs its main loop's Stop, Ping and error handling.
- **The event stream**:
  - the server example's frames (`event_frames.dfy`);
  - the older example's field-by-field writers (`legacy_frames.dfy`);
  - the Java viewer's reader thread and drawing bookkeeping (`test_display.dfy`).
- **Geometry** (`util.rs` helpers, `util.dfy`): integer rectangle geometry
  and the segments that are drawn.

A double is modelled as its 64-bit IEEE-754 pattern, so every codec round
trip is exact at the bit level. Rust text is modelled as its UTF-8 bytes and
Java text as UTF-16 code units. Instants are integers. Sockets become the
sequence of receive results they deliver plus the datagrams sent. Code that
works by mutation is modelled as classes and methods, each proved against
a pure specification function; the properties are lemmas about those
functions.

Four places in the code depart from what it evidently intends:

- `get_server` in the organizer matches Idle clients rather than servers.
- The InfoUpdate codec of the common crate cannot round-trip.
- The Java viewer reads two doubles of a position frame that carries three.
- The server's Disconnect event reads the wrong index.

Each of these is listed under Findings, with the as-written behaviour
exhibited and the intended one proved. The organizer's configuration write
uses `get_server` as written, and the Java reader takes a flag whose false
value reads a position frame as written. The server and the client decode
datagrams with the corrected decoder `CommonHosts.CorrectedDecode`, which
agrees with the code as written on every command except InfoUpdate, and
the server removes a client with the intended Disconnect; the lines under
Left out that start with their members' names say what that leaves out.

## Model

| member | source | states |
|---|---|---|
| CommonLib.Elapsed | common/src/lib.rs:144-146 | the shortest duration that takes the instant to now or past it, so zero for an instant not yet reached, as `Instant::elapsed` saturates |
| CommonLib.NewWithChange | common/src/lib.rs:118-124 | the record holds exactly the given value, valid time and change instant |
| CommonLib.New | common/src/lib.rs:110-116 | a new record is `new_with_change` at the current instant, and it is valid at that instant |
| CommonLib.Get | common/src/lib.rs:126-132 | the value is returned exactly while no more than the valid time has passed since the last change, and then it is the stored value |
| CommonLib.SetWithTime | common/src/lib.rs:139-142 | the value and change instant are replaced and the valid time is kept, so `get` at the change instant returns the new value |
| CommonLib.Set | common/src/lib.rs:134-137 | `set` is `set_with_time` at the current instant, and the record is then valid |
| CommonLib.ValidityWindow | common/src/lib.rs:134-146 | after a change at t the record is valid, and `get` returns a value, at a later instant exactly when no more than the valid time has passed |
| CommonLib.SelectableIndices | common/src/lib.rs:77-87 | the mapping built while listing holds, in increasing order, exactly the indices of the choosable items |
| CommonLib.Choice | common/src/lib.rs:72-100 | a failed read is the stdin error; a number inside the mapping picks the item it numbers; a number past it gives the default unchanged, or `NoDefault` with that number |
| CommonLib.ChosenIsSelectable | common/src/lib.rs:91-99 | a number inside the mapping always picks an item that is listed as a choice |
| CommonLib.Lower | common/src/lib.rs:58 | no upper-case letter is left; only 'A'..'Z' change, each to the lower-case letter at the same place in the alphabet |
| CommonLib.LowerString | common/src/lib.rs:58 | the lower-cased text has the same length and is lower-cased character by character |
| CommonLib.YesNoChoice | common/src/lib.rs:53-61 | a failed read or an empty answer gives the default; otherwise the answer means yes exactly when, lower-cased, it is "y" or "yes" |
| CommonLib.YesAnswers | common/src/lib.rs:58 | a non-empty answer means yes exactly when it is one letter y, or three letters y, e, s, in either case |
| Extrapolations.LinearExtrapolation.constructor | server/src/extrapolations.rs:17-23 | both slots are empty, `p` is 0 and no point has been added |
| Extrapolations.LinearExtrapolation.PrevSlot | server/src/extrapolations.rs:33-37 | the slot before `p`, taken cyclically, is the other slot |
| Extrapolations.LinearExtrapolation.AddDatapoint | server/src/extrapolations.rs:27-30 | the point goes into slot `p`, the other slot is untouched, `p` advances modulo 2, and the two slots still hold the newest point and the one before it |
| Extrapolations.LinearExtrapolation.Extrapolate | server/src/extrapolations.rs:32-51 | there is a result exactly once two points have been added, and it is the interpolation from the point before the newest towards the newest |
| Extrapolations.LinearExtrapolation.GetLastDatapoint | server/src/extrapolations.rs:53-55 | the "last" datapoint is slot `p`, so the point before the newest, and there is none until two points have been added |
| Extrapolations.TwoPoints | server/src/extrapolations.rs:17-55 | two adds to a new extrapolator enable it: it interpolates from the first point to the second, and its last datapoint is the first |
| Extrapolations.Extrapolation.constructor | src/extrapolations.rs:16-23 | the given invalidation age and a new, empty extrapolator |
| Generational.GenerationalValue.constructor | src/lib.rs:21-23 | a new value starts at generation 0 |
| Generational.GenerationalValue.WithGeneration | src/lib.rs:24-26 | the value and generation given |
| Generational.GenerationalValue.Set | src/lib.rs:31-34 | the new value, and the generation one higher |
| Generational.GenerationalValue.Display | src/lib.rs:39-43 | the text is '[', the value's text, " of ", the generation in decimal (which reads back as the generation) and ']', each at its place |
| Positions.ToBeBytes | src/position.rs:21-29 | 24 bytes: x in bytes 0-7, y in 8-15 and rotation in 16-23, each big-endian |
| Positions.FromBeBytes | src/position.rs:14-20 | each component is the double whose big-endian bytes are its eight-byte field |
| Positions.RoundTrip | src/position.rs:14-29 | decoding an encoded position gives back every component bit for bit |
| Positions.BytesRoundTrip | src/position.rs:14-29 | encoding a decoded 24-byte array gives back the array |
| Positions.FromTuple | src/position.rs:32-36 | the tuple's three parts become x, y and rotation in that order |
| Positions.CposFacesCentre | src/position.rs:44 | slot i of `CPOS` is the direction opposite the one a rotation of i quarter turns faces, so each camera looks at the centre, and each slot has exactly one non-zero coordinate |
| Positions.CalcPositionInSquareDistance | src/position.rs:55-65 | camera i sits at `distance` along the direction opposite its facing, and its rotation is i times 90 degrees in radians |
| Util.GetColor | src/util.rs:13-22 | every colour is opaque (alpha 1) with channels at most 255 |
| Util.BlueIsYellow | src/util.rs:13-22 | two colours are drawn alike exactly when they are equal or both are Blue or Yellow: Blue is drawn in Yellow's colour |
| Util.TruncDiv | src/util.rs:31-32 | the quotient q of `i32` division rounds toward zero: q * d <= n < q * d + d for n >= 0, and q * d - d < n <= q * d for n < 0 |
| Util.Center | src/util.rs:28-35 | the centre of a rectangle of non-negative size lies inside it, at most half a unit before the exact middle; for a negative size the halves round toward the corner |
| Util.MinX | src/util.rs:95 | the least x of the corners: no corner is smaller and some corner has it |
| Util.MaxX | src/util.rs:97 | the greatest x of the corners: no corner is larger and some corner has it |
| Util.MinY | src/util.rs:96 | the least y of the corners: no corner is smaller and some corner has it |
| Util.MaxY | src/util.rs:98 | the greatest y of the corners: no corner is larger and some corner has it |
| Util.Abs | src/util.rs:103-104 | the absolute value is the number or its negation, and is never negative |
| Util.BoundingToRect | src/util.rs:94-106 | there is no rectangle exactly when there are no corners |
| Util.BoundingRectContains | src/util.rs:94-106 | the rectangle starts `offset` before the least coordinates and spans the coordinate range plus twice the offset, so with a non-negative offset it contains every corner |
| Util.DrawBounds | src/util.rs:37-64 | nothing for fewer than four corners; otherwise one segment per corner, from it to the next corner and from the last back to the first, drawn with width 2 in the given colour |
| Util.DrawX | src/util.rs:66-85 | two segments of width 2 in the given colour, one vertical and one horizontal, each 20 long and centred on the point |
| CameraInfo.Encode | src/cv.rs:266-304 | the first byte is the coefficient column count modulo 256, and the length is one byte plus eight per matrix element and for the fov |
| CameraInfo.EncodedLength | src/cv.rs:266-304 | a calibration with n coefficients encodes to 1 + 8 * (19 + n) bytes |
| CameraInfo.GetMatSpec | src/cv.rs:313-329 | a matrix that is read has h rows, w columns and w * h elements |
| CameraInfo.DecodeSpec | src/cv.rs:306-351 | a record is decoded only when the stream holds the count byte, two 3x3 matrices, the coefficients the count byte announces and the fov |
| CameraInfo.GetMat | src/cv.rs:313-329 | the closure panics for a matrix larger than the 96-byte buffer, fails with an I/O error on a short stream, and otherwise builds the h by w matrix from the next w * h doubles; the stream is left as the specification says |
| CameraInfo.FromBeBytes | src/cv.rs:306-351 | the decoder's outcome and what the stream still holds are those of the stage-by-stage specification: count byte, two 3x3 matrices, a count by 1 matrix, the fov |
| CameraInfo.RoundTrip | src/cv.rs:266-351 | for two 3x3 matrices and at most 12 coefficients, decoding an encoding recovers the matrices, coefficients and fov bit for bit, with the coefficients as a column, and leaves what followed |
| CameraInfo.ReEncodedCount | src/cv.rs:285-287 | the decoder stores the coefficients as n rows of one column, so a decoded record re-encodes with a count byte of 1 |
| CameraInfo.LargeCountPanics | src/cv.rs:308-333 | a count byte above 12 panics, because 8 times it exceeds the 96-byte scratch buffer |
| CameraInfo.ShortStreamFails | src/cv.rs:310-335 | a stream that ends before the count byte, a matrix or the fov is read fails with an I/O error |
| CameraInfo.TruncationFails | src/cv.rs:266-351 | every strict prefix of a calibration's encoding fails with an I/O error |
| CommonHosts.EncodeHostInfo | common/src/hosts.rs:45-71 | an Unreachable host has no byte; otherwise the top two bits give the host type, bit 5 is set exactly when running, bit 4 exactly for a calibrated client, and the low nibble is clear |
| CommonHosts.DecodeHostInfo | common/src/hosts.rs:73-105 | type bits 00 are refused; otherwise the type comes from the top two bits, the state from bit 5 and, for a client only, the calibrated flag from bit 4 |
| CommonHosts.HostInfoRoundTrip | common/src/hosts.rs:45-105 | every reachable host decodes back from its status byte |
| CommonHosts.EncodedBytes | common/src/hosts.rs:45-105 | a byte is the encoding of what it decodes to exactly when its type bits are non-zero, its low nibble is clear and bit 4 is set only for a client |
| CommonHosts.DecodeIgnoredBits | common/src/hosts.rs:81-98 | the decoder ignores bits 3-0, and bit 4 unless the type is client |
| CommonHosts.CommandConstantsDistinct | common/src/hosts.rs:145-157 | the eleven command tags are pairwise distinct |
| CommonHosts.EncodeInfoUpdate | common/src/hosts.rs:203-228 | as written the InfoUpdate encoding puts the u16 IP length and the IP before the tag byte, then the position, the fov flag and the fov when present |
| CommonHosts.Encode | common/src/hosts.rs:159-231 | every command but InfoUpdate starts with its tag; the single-byte commands are one byte, Connect 33, StartServer 5, StartConfigless 3 plus the IP and ValueUpdate 10 |
| CommonHosts.DecodeInfoUpdate | common/src/hosts.rs:265-279 | as written the InfoUpdate arm never yields a command: it panics exactly when the announced IP is present and is not UTF-8, and is otherwise refused, since 26 bytes never convert into a 24-byte position |
| CommonHosts.DecodeValueUpdate | common/src/hosts.rs:255-258 | refused exactly when fewer than nine bytes follow the tag; otherwise a ValueUpdate |
| CommonHosts.DecodeConnect | common/src/hosts.rs:260-263 | refused exactly when fewer than 32 bytes follow the tag; otherwise a Connect |
| CommonHosts.DecodeStartConfigless | common/src/hosts.rs:281-287 | never panics; a decoded IP is valid UTF-8 of the announced length |
| CommonHosts.DecodeStartServer | common/src/hosts.rs:289-291 | refused exactly when fewer than four bytes follow the tag; otherwise a StartServer |
| CommonHosts.DecodeTagged | common/src/hosts.rs:246-295 | a decoded command is never an InfoUpdate, carries the tag it was dispatched on and is well formed; only the InfoUpdate tag can panic |
| CommonHosts.Decode | common/src/hosts.rs:233-297 | an empty buffer is refused; a decoded command's tag is the first byte; a panic needs the InfoUpdate tag |
| CommonHosts.UnknownByteRejected | common/src/hosts.rs:293 | a buffer whose first byte is no command tag is refused |
| CommonHosts.RoundTrip | common/src/hosts.rs:159-297 | every well-formed command other than InfoUpdate decodes back from its encoding, whatever bytes follow |
| CommonHosts.ConnectRoundTrip | common/src/hosts.rs:164-169 | a Connect decodes back from its encoding followed by any bytes |
| CommonHosts.StartServerRoundTrip | common/src/hosts.rs:174-178 | a StartServer decodes back from its encoding followed by any bytes |
| CommonHosts.StartConfiglessRoundTrip | common/src/hosts.rs:180-185 | a StartConfigless with a UTF-8 IP shorter than 65536 bytes decodes back from its encoding followed by any bytes |
| CommonHosts.ValueUpdateRoundTrip | common/src/hosts.rs:193-201 | a ValueUpdate decodes back from its encoding followed by any bytes |
| CommonHosts.TruncationRejected | common/src/hosts.rs:246-295 | every strict prefix of a multi-byte encoding is refused |
| CommonHosts.InfoUpdateNeverRoundTrips | common/src/hosts.rs:203-279 | as written an InfoUpdate with an IP shorter than 256 bytes encodes to a first byte 0x00 and is refused, and no buffer at all decodes to an InfoUpdate |
| CommonHosts.InfoUpdatePanics | common/src/hosts.rs:266-267 | the InfoUpdate tag, length 1 and the byte 0xFF make the decoder panic |
| CommonHosts.CorrectedEncode | common/src/hosts.rs:159-231 | the tag comes first for InfoUpdate too; the other commands are encoded unchanged |
| CommonHosts.CorrectedDecodeInfoUpdate | common/src/hosts.rs:265-279 | never panics, and what it decodes is a well-formed InfoUpdate |
| CommonHosts.CorrectedDecode | common/src/hosts.rs:233-297 | never panics, and agrees with the decoder as written on every tag but InfoUpdate |
| CommonHosts.CorrectedInfoUpdateRoundTrip | common/src/hosts.rs:203-279 | with the corrected layout an InfoUpdate with a UTF-8 IP decodes back, with and without a fov |
| CommonHosts.CorrectedRoundTrip | common/src/hosts.rs:159-297 | with the corrected layout every well-formed command decodes back from its encoding followed by any bytes |
| LegacyHosts.Encode | src/hosts.rs:38-68 | an unreachable status has no byte; otherwise bit 4 is set exactly for a calibrated client and the low nibble is clear |
| LegacyHosts.Decode | src/hosts.rs:70-99 | type bits 00 are refused; every server byte decodes as a running server; a client's calibrated flag is bit 4; nothing decodes as unreachable |
| LegacyHosts.RoundTrip | src/hosts.rs:38-99 | every reachable status decodes back from its byte |
| LegacyHosts.CommandToByte | src/hosts.rs:114-131 | each command's byte is its discriminant, which decodes back to it, except ImagesDone, whose byte is not recognised |
| LegacyHosts.ByteToCommand | src/hosts.rs:133-149 | ImagesDone is never decoded |
| LegacyHosts.ByteToCommandExact | src/hosts.rs:114-149 | the bytes that decode are exactly the discriminants of the five recognised commands, and each decodes to the command with that discriminant |
| HostTable.Search | organizer/src/lib.rs:222-242 | the accumulator of the server fold; a found index lies inside the table |
| HostTable.SearchCounts | src/utils.rs:5-23 | no matching host gives NoServer, exactly one gives that host (and no other host matches), and k >= 2 give Multiple(k - 1) |
| HostTable.NoneMatch | src/utils.rs:5-23 | a count of zero means no host matches |
| HostTable.Lookup | src/utils.rs:6-20 | the loop over the table leaves the accumulator the fold specifies |
| HostTable.GetServer | src/utils.rs:5-23 | the one Running or Idle server is found exactly when there is one; none gives NoServer; k of them give Multiple(k - 1) |
| Scanning.Octets | src/scanning.rs:24-39 | a fixed member stands for its one octet; a range for the octets start, start + 1, ... below end, and none when start >= end |
| Scanning.FlattenIndex | src/scanning.rs:41-49 | with blocks of m items, the pushed sequence has block count times m items, and item j of block i is at i * m + j |
| Scanning.FlattenLength | src/scanning.rs:41-49 | blocks of m items push block count times m items |
| Scanning.IntoIter | src/scanning.rs:21-52 | the four nested loops push exactly the template's address sequence |
| Scanning.PushRow1 | src/scanning.rs:42-48 | the loop over the second octet appends that octet's block of addresses |
| Scanning.PushRow2 | src/scanning.rs:43-47 | the loop over the third octet appends that octet's block of addresses |
| Scanning.PushRow3 | src/scanning.rs:44-46 | the loop over the last octet appends one address per octet |
| Scanning.AddressesCount | src/scanning.rs:21-52 | the template yields the product of the four expansions' lengths, so nothing when a range is empty |
| Scanning.AddressAt | src/scanning.rs:41-49 | address ((i0 * n1 + i1) * n2 + i2) * n3 + i3 is built from octet i0 of the first member, i1 of the second, i2 of the third and i3 of the last: the first octet varies slowest |
| Scanning.Decompose | src/scanning.rs:41-49 | every position below the product of four lengths is reached by exactly the index formula of four indices in range |
| Scanning.AddressesParse | src/scanning.rs:45 | every address yielded is the dotted text of an IPv4 address whose octets come from the four members, and it parses back to them |
| Scanning.SeventeenAddresses | src/scanning.rs:21-52 | the template 192, 168, 0, 1..18 yields 192.168.0.1 to 192.168.0.17 in order |
| Service.Command | server/src/service.rs:209-217 | a datagram is cut to the 64-byte buffer and then decoded; the model's decoding never panics, and on every first byte but the InfoUpdate tag it is the decoder as written |
| Service.AsWrittenDecoderPanics | server/src/service.rs:209-217 | as written, the datagram of the InfoUpdate tag, IP length 1 and the byte 0xFF makes the receive loop's decoder panic, while the model's command decodes it or refuses it |
| Service.WaitSpec | server/src/service.rs:211-233 | a start happens at one of the receives, waiting on means every receive was a datagram, and the replies are at most one per receive |
| Service.IdleServerReply | server/src/service.rs:219-229 | the reply before the start is the byte 0xC0, which decodes as an Idle server |
| Service.RunningServerReply | server/src/service.rs:245-256 | the reply while running is the byte 0xE0, which decodes as a Running server |
| Service.NewBuilder | server/src/service.rs:70-84 | localhost on port 0xdddd, 15 degrees in radians, half a second of validity, a fresh empty extrapolator, no position, motion data or clients, and no compass |
| Service.WithLastKnownPos | server/src/service.rs:86-89 | sets the last known position and keeps every other field |
| Service.WithMotionData | server/src/service.rs:90-93 | sets the motion data and keeps every other field |
| Service.WithMinCameraAngleDiff | server/src/service.rs:94-97 | sets the minimum camera angle and keeps every other field |
| Service.WithDataValidity | server/src/service.rs:98-101 | sets the validity and keeps every other field |
| Service.WithClient | server/src/service.rs:102-114 | appends the client after those already given and keeps every other field |
| Service.WithAddress | server/src/service.rs:115-118 | sets the address and keeps every other field |
| Service.WithExtrapolation | server/src/service.rs:123-135 | the same builder over the new extrapolator |
| Service.WithCompass | server/src/service.rs:136-148 | the same builder over the new compass |
| Service.SettersCommute | server/src/service.rs:86-118 | setters of different fields commute, the second setting of a field wins, and clients keep the order they were added in |
| Service.WaitRepliesAreIdle | server/src/service.rs:211-233 | every reply sent before the start is the Idle-server byte |
| Service.StartsAtFirstStartServer | server/src/service.rs:211-233 | the server starts at the first StartServer, with its cube and sender, and every earlier receive was a datagram of some other command |
| Service.LastMatch | server/src/service.rs:279-282 | the last entry reporting from the sender, or none when no entry does |
| Service.OldestIsFirstMinimum | server/src/service.rs:267-277 | the scan picks the first client with a report strictly older than the start and than every earlier one; with none older than the start it picks index 0 |
| Service.FirstIpMatch | server/src/service.rs:322-323 | the first entry whose IP, as text, is the given one, or none when there is no such entry |
| Service.FirstMatch | server/src/service.rs:341-342 | the first entry reporting from the sender, or none when no entry does |
| Service.StopDatagrams | server/src/service.rs:355-360 | one STOP byte to each client in table order |
| Service.StampAll | server/src/service.rs:272-289 | every entry of the sender takes the report at the receive instant; every other entry is kept |
| Service.Contributions | server/src/service.rs:279-288 | each client contributes its camera and, for the sender, the new report, otherwise its last report while still valid |
| Service.UpdatePositionStep | server/src/service.rs:365-405 | clients, replies and motion data are kept; either nothing changes or the new last position carries the receive instant, is appended to the points and is broadcast as one PositionUpdate |
| Service.ValueUpdateStep | server/src/service.rs:267-297 | the table keeps its length and every entry its address and camera, nothing is sent, and an event is broadcast only when the last entry of the sender is the oldest-report pick |
| Service.ConnectStep | server/src/service.rs:301-314 | the table grows by one entry at the end, with the sender's address and the announced camera, one Connect is broadcast and nothing else changes |
| Service.InfoUpdateStep | server/src/service.rs:316-336 | the table keeps its length, addresses and reports, only entries with that IP text change, and at most one event is appended |
| Service.DisconnectStep | server/src/service.rs:340-349 | a sender with no entry changes nothing; otherwise the table shrinks by one and the sender is broadcast as one Disconnect |
| Service.DisconnectAsWritten | server/src/service.rs:340-349 | as written it panics exactly when the sender's only entry is the last one; otherwise nothing is sent and the table is at most one shorter |
| Service.Dispatch | server/src/service.rs:243-352 | an undecoded datagram changes nothing, only a Ping sends a reply (0xE0 to its sender), and the events only grow, by at most one |
| Service.ServeSpec | server/src/service.rs:235-360 | the events only grow, and the loop is still listening only when every receive was a datagram that was not Stop |
| Service.Shared.constructor | server/src/service.rs:165-171 | the shared part starts with the builder's position, motion data and extrapolator, and no event sent |
| Service.Background.Environment | server/src/service.rs:193-201 | the task's fixed parameters together with the cube and the oracles |
| Service.Background.constructor | server/src/service.rs:174-182 | the task starts with the builder's clients and settings and no datagram sent |
| Service.Background.AwaitStart | server/src/service.rs:211-233 | the first loop's outcome and the replies it sends are those of the waiting specification; the table is untouched |
| Service.Background.ApplyValueUpdate | server/src/service.rs:267-289 | the loop stamps the sender's entries, collects each client's contribution, and returns the last updated index and the oldest-report index of the table before the update |
| Service.Background.UpdatePosition | server/src/service.rs:365-405 | a failed computation changes nothing; otherwise the position, stamped with the start and receive instants, becomes the last position, goes to the extrapolator and is broadcast |
| Service.Background.Handle | server/src/service.rs:243-352 | Stop is told apart and changes nothing; every other datagram changes the state as the dispatch specifies |
| Service.Background.Apply | server/src/service.rs:243-353 | each decoded command other than Stop changes the state as the dispatch specifies for it, and Stop changes nothing |
| Service.Background.HandleValueUpdate | server/src/service.rs:259-298 | the ValueUpdate arm: the table is stamped and the position recomputed exactly as the value-update step specifies |
| Service.Background.AddClient | server/src/service.rs:301-314 | the Connect arm: one entry for the sender with the placed camera is appended and one Connect event is broadcast, as the connect step specifies |
| Service.Background.InfoUpdateClient | server/src/service.rs:316-336 | the first client with that IP takes the new position, and the fov when given, and that camera is broadcast; nothing else changes |
| Service.Background.RemoveClient | server/src/service.rs:340-349 | the first entry of the sender leaves the table and the removed client's address is broadcast |
| Service.Background.BroadcastStop | server/src/service.rs:355-360 | STOP is sent to every client in the table |
| Service.Background.Serve | server/src/service.rs:235-360 | the running loop's final state and outcome are those of the serving specification |
| Service.Background.Run | server/src/service.rs:208-363 | `run` waits as the waiting specification says, then serves exactly the receives after the StartServer, over that StartServer's cube |
| Service.Start | server/src/service.rs:157-191 | the task takes the clients and settings, the shared part the position, motion data and extrapolator, nothing is sent, and the handle keeps the validity |
| Service.LocationService.constructor | server/src/service.rs:185-189 | the handle shares the task's shared part and keeps the validity |
| Service.LocationService.GetPosition | server/src/service.rs:433-450 | nothing without a last position, when its x or y is NaN, or when it is older than the validity; otherwise, exactly when two points exist, the extrapolation from the two newest to `now` |
| Service.LocationService.SetMotionHint | server/src/service.rs:418-427 | without a last position nothing changes; otherwise the motion data becomes the hint at that position, or none |
| Service.PingAnswered | server/src/service.rs:245-256 | a Ping while running is answered to its sender with 0xE0 and nothing else changes |
| Service.ConnectAppends | server/src/service.rs:301-314 | Connect appends one client with the sender's address, the camera and the (NaN, 255) report stamped one validity period before, and broadcasts it |
| Service.PlaceholderExpires | server/src/service.rs:306-310 | the placeholder report is valid at the connection instant and at no later instant |
| Service.ValueUpdateStampsSender | server/src/service.rs:272-289 | ValueUpdate stamps every entry of the sender with the report, the receive instant and the kept validity, and leaves every other entry as it was |
| Service.UnknownSenderIgnored | server/src/service.rs:292-297 | a ValueUpdate from an address with no entry changes nothing |
| Service.PositionOnlyForOldest | server/src/service.rs:292-297 | the position is recomputed and broadcast exactly when the last updated entry is the one the oldest-report scan picked and the computation gives a position; otherwise only the table changes, by the stamping |
| Service.SingleClientRecomputes | server/src/service.rs:267-297 | with one client whose report predates the start, its update recomputes the position |
| Service.UpdatePositionOutcome | server/src/service.rs:365-405 | a failed computation changes nothing; a computed one becomes the last position and newest point and is broadcast once, and nothing else changes |
| Service.InfoUpdateFirstMatch | server/src/service.rs:316-336 | InfoUpdate changes only the first client with that IP (the position, and the fov when given) and broadcasts it; with no such client nothing changes |
| Service.DisconnectAsWrittenMisreports | server/src/service.rs:340-349 | as written, disconnecting the first of two clients reports the second one's address, and disconnecting the only client panics |
| Service.DisconnectRemovesFirst | server/src/service.rs:340-349 | as intended, ClientDisconnect removes the first entry of the sender, keeps the others in order and broadcasts the sender; without an entry nothing changes |
| Service.StopBroadcasts | server/src/service.rs:338 | Stop ends the loop from any sender, the rest is not read, and STOP goes to every client in table order |
| Service.TableSize | server/src/service.rs:243-352 | the table grows by one on Connect, shrinks by one on ClientDisconnect from a known sender, and keeps its length otherwise |
| Organizer.StateName | organizer/src/lib.rs:109 | each state is printed by its non-empty ASCII name |
| Organizer.TypeWord | organizer/src/lib.rs:97-106 | a client's line opens with "CLIENT ", a configless client's with "PHONE ", a server's with "SERVER " |
| Organizer.Suffix | organizer/src/lib.rs:100-109 | what follows the address ends with a space and the state's name, preceded by " CALIBRATED" for a calibrated client |
| Organizer.Display | organizer/src/lib.rs:94-111 | a host's line is its type word, its address in dotted form, then the suffix, each at its place, all ASCII |
| Organizer.DisplayTellsType | organizer/src/lib.rs:97-106 | hosts of different types (client, phone, server) print lines with different first bytes |
| Organizer.GetServerMissesServers | organizer/src/lib.rs:222-242 | as written the lookup does not find a lone running server and returns a lone idle client as the server; the lookup as intended does the opposite |
| Organizer.Organizer.constructor | organizer/src/lib.rs:187-199 | an organizer starts with an empty host table, nothing sent, the given buffer size and cube |
| Organizer.Organizer.GetServer | organizer/src/lib.rs:222-242 | as written the fold counts Idle clients and configless clients: one gives that host, which is an Idle client, and k >= 2 give Multiple(k - 1) |
| Organizer.Organizer.GetServerCorrected | organizer/src/lib.rs:222-242 | as intended, the fold counts Running or Idle servers: exactly one gives that server, k >= 2 give Multiple(k - 1) |
| Organizer.Organizer.StopHost | organizer/src/lib.rs:397-413 | a host that is not Running gives NotRunning and changes nothing; otherwise STOP goes to its main port, and the first equal host is removed, or the `unwrap` panics when it is not in the table |
| Organizer.Organizer.Scan | organizer/src/lib.rs:415-484 | one Ping is broadcast to 255.255.255.255 on the main port; the loop receives while the 2 s window is open, and the outcome and new table are those of the scan specification over the receive results the replies' arrival times give |
| Organizer.Organizer.MergeReply | organizer/src/lib.rs:425-450 | one reply changes the table and the flags as the merge step specifies, and nothing is sent |
| Organizer.Organizer.MarkUnreachedHosts | organizer/src/lib.rs:453-481 | the pass leaves the table the Unreachable specification gives for the flags, and nothing is sent |
| Organizer.ScanSpec | organizer/src/lib.rs:415-484 | the scan never shrinks the table and keeps every pre-scan host's address at its place |
| Organizer.Receives | organizer/src/lib.rs:424-430 | the receive results of the loop: nothing once the 2 s window has passed, a failure when the next reply would come later than the 500 ms read timeout, otherwise that reply; only the last result can be a failure |
| Organizer.ScanLoopOk | organizer/src/lib.rs:424-451 | the receive loop runs to its end exactly when no receive fails |
| Organizer.SilenceTimesOut | organizer/src/lib.rs:424-430 | with no reply at all the first receive times out and the scan fails, leaving the table as it was |
| Organizer.ScanNeedsLateReply | organizer/src/lib.rs:415-430 | a scan that ends normally received a reply at or after the 2 s deadline |
| Organizer.PacedScanSucceeds | organizer/src/lib.rs:415-451 | replies that each come within the read timeout of the one before, until one at or after the deadline, are received in turn and the scan ends normally |
| Organizer.IndexOf | organizer/src/lib.rs:410 | the first index of the host, and none exactly when the host is not in the table |
| Organizer.RemoveFirstRemovesOne | organizer/src/lib.rs:409-410 | removal takes out exactly one copy of the host, so the table is one shorter and otherwise the same multiset |
| Organizer.NoneHit | organizer/src/lib.rs:422 | the reply flags start all false, one per pre-scan host |
| Organizer.FindHost | organizer/src/lib.rs:439-443 | the first pre-scan host with that address, searching only the first n entries, or none when there is none |
| Organizer.Unreached | organizer/src/lib.rs:457-480 | a host that did not answer keeps its address, type and calibrated flag, and becomes Unreachable |
| Organizer.ScanStep | organizer/src/lib.rs:425-450 | one receive keeps the flags' length, never shrinks the table and keeps every address at its place |
| Organizer.ScanLoop | organizer/src/lib.rs:424-451 | the receive loop keeps the flags' length, never shrinks the table and keeps every address at its place |
| Organizer.MarkUnreached | organizer/src/lib.rs:453-481 | exactly the pre-scan hosts without a reply become Unreachable; the others and the hosts appended by the scan are kept |
| Organizer.ScanErrorAborts | organizer/src/lib.rs:425-430 | a receive error, the 500 ms read timeout included, aborts the scan before the Unreachable pass |
| Organizer.ScanIgnores | organizer/src/lib.rs:426-437 | a reply of another length than one byte, from an IPv6 sender, or not a status byte, is ignored |
| Organizer.ScanSilence | organizer/src/lib.rs:453-481 | the Unreachable pass on its own, as when the window has passed before any receive, makes every host Unreachable, keeping its type and address |
| Organizer.ScanReplyOverwrites | organizer/src/lib.rs:439-447 | a status reply from a pre-scan host overwrites its status, and when the window closes after it the Unreachable pass leaves it alone |
| Organizer.ScanDuplicates | organizer/src/lib.rs:422-449 | the lookup covers only pre-scan hosts, so a new address that replies twice is appended twice |
| Organizer.GetImageSpec | organizer/src/lib.rs:486-495 | an image is read only when the stream holds a u64 length and that many bytes after it, and the stream never grows |
| Organizer.GetImageLeavesSuffix | organizer/src/lib.rs:486-495 | reading an image only consumes: what the stream still holds is a suffix of what it held |
| Organizer.ImageLoopSpec | organizer/src/lib.rs:310-348 | the stream never grows, and a failed loop failed on a read that gave no image |
| Organizer.ImageFramingRoundTrip | organizer/src/lib.rs:486-495 | a length-prefixed image reads back as the same bytes and leaves the rest of the stream |
| Organizer.ImageLoopWrites | organizer/src/lib.rs:310-348 | the loop writes only image requests, closed by IMAGES_DONE when it ends normally; calibrating, it ends normally only with a kept image |
| Organizer.CalibrationNeedsAnImage | organizer/src/lib.rs:335-337 | while calibrating, the loop does not end as long as no image is kept |
| Organizer.ShowingEndsAtNoMore | organizer/src/lib.rs:340-344 | showing images ends at the first `more()` that is false: k requests and IMAGES_DONE for a first false answer at index k - 1 |
| Organizer.Requests | organizer/src/lib.rs:311 | n image requests are n REQUEST_IMAGE bytes |
| Organizer.GetImage | organizer/src/lib.rs:486-495 | the read's outcome and what the stream still holds are those of the image specification; a buffer shorter than 8 bytes panics |
| Organizer.ImageStep | organizer/src/lib.rs:311-346 | one round writes a request and, when the loop ends there, the loop's whole outcome; otherwise the rest of the loop after this request |
| Organizer.ImageLoop | organizer/src/lib.rs:310-348 | the loop's end, what it writes and what the stream still holds are those of the image-loop specification |
| Organizer.ConfigBytesLayout | organizer/src/lib.rs:382-392 | the configuration puts the position in bytes 0-23, the IP length in 24-25, the IP after it and the cube last |
| Organizer.ConfigBytes | organizer/src/lib.rs:382-392 | the configuration is 30 bytes plus the IP text and the calibration record sent |
| Organizer.WriteConfigBytes | organizer/src/lib.rs:382-392 | the writes append x, y, rotation, the IP length and IP, the calibration record when there is one, then the cube |
| Organizer.WriteConfig | organizer/src/lib.rs:350-392 | the server is looked up first with `get_server` as written: with exactly one Idle client or configless client the configuration names that host's address, and otherwise nothing is written |
| Organizer.CalibratesUncachedClients | organizer/src/lib.rs:274-287 | a client's Idle reply makes the organizer calibrate it exactly when the client has no cached calibration |
| Organizer.ConfigRoundTrip | organizer/src/lib.rs:382-392 | what the organizer writes reads back on the client as the same position, server address and cube whenever a calibration record is sent exactly when the client has none cached |
| Client.ConfigTailSpec | client/src/main.rs:55-71 | a configuration keeps the server address and position read before it and a cached calibration when there is one; with a cache it succeeds exactly when four cube bytes follow |
| Client.ServerAddrSpec | client/src/main.rs:48-53 | the address is the IPv4 address the next `ip_len` bytes of valid UTF-8 parse to, on the main port, and the stream continues after them; invalid UTF-8 is a UTF-8 error |
| Client.FromOrganizerSpec | client/src/main.rs:35-72 | a configuration needs the 26-byte header; its position is the one whose bytes are the first 24; the server is on the main port; a cached calibration is used as is |
| Client.FromOrganizerStages | client/src/main.rs:39-59 | once the header and the address are read, the rest is the calibration record (unless cached) and the cube |
| Client.ReadServerAddr | client/src/main.rs:48-53 | resizing, reading, UTF-8 checking and parsing the address give the address specification's outcome and stream |
| Client.ReadConfigTail | client/src/main.rs:55-71 | the calibration read (skipped when cached) and the cube read give the tail specification's outcome and stream |
| Client.FromOrganizer | client/src/main.rs:35-72 | `from_organizer`'s outcome and what the stream still holds are those of its specification |
| Client.CommandOfTag | client/src/main.rs:194-195 | a datagram starting with a one-byte command's tag is that command, whatever follows |
| Client.Command | client/src/main.rs:118-119 | the model's decoding of a datagram never panics, and on every first byte but the InfoUpdate tag it is the decoder as written |
| Client.WaitSpec | client/src/main.rs:116-135 | still waiting means every receive was a datagram, and the replies are at most one per receive |
| Client.InnerSpec | client/src/main.rs:173-247 | the loop runs on only while no receive timed out and the quit key was never pressed |
| Client.IdleReply | client/src/main.rs:121-131 | the reply before the start is the byte 0x50 or 0x40, which decodes as an Idle client calibrated exactly when a calibration is cached |
| Client.RunningReply | client/src/main.rs:197-207 | the reply in the main loop is 0x70, which decodes as a calibrated, Running client |
| Client.WaitForOrganizer | client/src/main.rs:116-135 | the wait loop's outcome and replies are those of the wait specification: Pings answered, others ignored, Start from its sender ends it, an error is propagated |
| Client.WaitRepliesAreIdle | client/src/main.rs:121-131 | every reply while waiting is the Idle status byte |
| Client.PingAnsweredWhileWaiting | client/src/main.rs:120-131 | a Ping while waiting is answered to its sender with the Idle byte and the wait goes on |
| Client.StartedBySender | client/src/main.rs:116-120 | the client starts at the first Start datagram, for its sender, and every earlier receive was a datagram of some other command |
| Client.ConnectDatagram | client/src/main.rs:154-160 | the client announces itself to the configured server, and the datagram decodes as Connect with the position and the calibrated fov |
| Client.TickStep | client/src/main.rs:192-235 | an iteration that ends the loop gives how it ended |
| Client.Farewell | client/src/main.rs:242-244 | ClientDisconnect goes to the server exactly when the loop ended and not by the server's Stop |
| Client.Step | client/src/main.rs:193-231 | one body of the loop does what the iteration function specifies |
| Client.InnerLoop | client/src/main.rs:173-247 | `inner_loop` ends as its specification says and sends the loop's datagrams and then the farewell |
| Client.StopEndsLoop | client/src/main.rs:195 | a Stop ends the loop at once, as stopped by the server exactly when it came from the configured server |
| Client.PingAnsweredInLoop | client/src/main.rs:196-207 | a Ping in the main loop, with no key and no detection, is answered to its sender with the Running byte and the loop goes on |
| Client.TimedOutAborts | client/src/main.rs:213 | a TimedOut receive error aborts the loop at once, with no farewell |
| Client.OtherErrorIgnored | client/src/main.rs:211 | any other receive error is ignored |
| Client.QuitSaysGoodbye | client/src/main.rs:216-218 | the 'q' key ends the loop as not stopped by the server, so ClientDisconnect is sent |
| Client.SentToServerOrPinger | client/src/main.rs:192-235 | everything the loop sends goes to the server, except the Running status byte to whoever pinged |
| EventFrames.PositionFrame | server/examples/main.rs:195-211 | a position frame is 28 bytes: the kind 0 as a big-endian `i32`, then x, y and rotation as big-endian doubles at offsets 4, 12 and 20 |
| EventFrames.AddressField | server/examples/main.rs:221-222 | the address text is preceded by its length as a big-endian `u16` |
| EventFrames.CameraPayload | server/examples/main.rs:221-226 | the connect payload is 34 bytes longer than the address text |
| EventFrames.ConnectFrame | server/examples/main.rs:213-232 | a connect frame is 38 + n bytes: kind 1, then the address field and the camera's four doubles |
| EventFrames.DisconnectFrame | server/examples/main.rs:234-251 | a disconnect frame is 6 + n bytes: kind 2, then the address field |
| EventFrames.InfoUpdateFrame | server/examples/main.rs:253-272 | an info-update frame is kind 3 followed by exactly the bytes a connect frame carries after its kind |
| EventFrames.Frame | server/examples/main.rs:161-177 | every frame the subscription loop writes opens with its event's kind as a big-endian `i32` |
| EventFrames.KindTellsEvent | server/examples/main.rs:161-177 | every frame the subscription loop writes starts with a kind that decodes to its event's kind, and two frames start alike exactly when their events are the same variant |
| LegacyFrames.OnPosition | examples/main.rs:143-159 | the position writer appends exactly the server example's 28-byte position frame |
| LegacyFrames.ConnectFields | examples/main.rs:161-174 | the connect fields are 38 bytes plus the address text: the kind 1 first, and the text right after its two-byte length |
| LegacyFrames.ConnectFieldsAreFrame | examples/main.rs:161-174 | the fields written one by one for a socket address's text are the server example's connect frame |
| LegacyFrames.OnConnect | examples/main.rs:161-174 | the connect writer appends the kind, the `u16` length, the text and four doubles; for the text of a socket address that is the server's connect frame |
| LegacyFrames.OnDisconnect | examples/main.rs:176-184 | the disconnect writer appends exactly the server example's disconnect frame |
| TestDisplay.ReadF64 | test/TestDisplay.java:32 | a double needs eight bytes; it is the double whose big-endian bytes they are, and the rest follows |
| TestDisplay.AsciiDecodes | test/TestDisplay.java:40 | ASCII bytes decode, as modified UTF-8, to the same characters |
| TestDisplay.ReadUtfSpec | test/TestDisplay.java:40 | `readUTF` hits the end of the stream exactly when the `u16` length or that many bytes are missing, and otherwise consumes them |
| TestDisplay.NextMessage | test/TestDisplay.java:29-51 | every message that is read consumes bytes |
| TestDisplay.ReadsPositionFrame | test/TestDisplay.java:31-36 | a server position frame is one point when its rotation is read too; as written, its rotation's eight bytes are left in the stream |
| TestDisplay.ReadsAsciiField | test/TestDisplay.java:40 | an ASCII text behind its `u16` length reads back as that text |
| TestDisplay.ReadsConnectFrame | test/TestDisplay.java:38-49 | a server connect frame reads as one camera, named by the address text, with the camera's position and fov |
| TestDisplay.ReadsViewable | test/TestDisplay.java:29-49 | the frame of a position or connect event reads as that event's point or camera |
| TestDisplay.ReadsServerStream | test/TestDisplay.java:25-60 | any run of position and connect frames reads, with the rotation read, as exactly their points and cameras in order, then ends cleanly |
| TestDisplay.StopsAtOtherKinds | test/TestDisplay.java:51 | a disconnect or info-update frame ends the reader on an unknown kind (2 or 3) and adds nothing |
| TestDisplay.OneBytes | test/TestDisplay.java:29 | the bytes of the double 1.0 start with the four bytes of the `int` 0x3FF00000 |
| TestDisplay.ReadsOneAsKind | test/TestDisplay.java:29-51 | the eight bytes of 1.0 read as a message stop the reader on the unknown kind 0x3FF00000 |
| TestDisplay.AsWrittenMisframesPosition | test/TestDisplay.java:31-36 | as written, a position frame with rotation 1.0 gives its point and then stops the reader on kind 0x3FF00000; with the rotation read it gives the point and a clean end |
| TestDisplay.ReadInt | test/TestDisplay.java:29 | `readInt` fails exactly when fewer than four bytes remain, and otherwise gives their big-endian value and consumes them |
| TestDisplay.ReadDouble | test/TestDisplay.java:32 | `readDouble` agrees with the eight-byte reading |
| TestDisplay.ReadUtf | test/TestDisplay.java:40 | `readUTF` agrees with its specification and leaves what follows the text |
| TestDisplay.ReadMessage | test/TestDisplay.java:29-51 | one turn of the reader loop reads the message at the head of the stream and relates it to the whole stream's reading; with `skipRotation` false a kind 0 reads two doubles, as the Java is written |
| TestDisplay.Display.constructor | test/TestDisplay.java:21-22 | empty lists, both counters 0, and an empty cache of the canvas size |
| TestDisplay.Display.Take | test/TestDisplay.java:29-51 | a message appends its point or camera to its list and shortens the stream, otherwise the reader stops as the stream's reading ends; `skipRotation` false is the Java as written |
| TestDisplay.Display.Ingest | test/TestDisplay.java:25-60 | the reader thread appends exactly the points and cameras of the stream's reading, in order, ends as that reading ends, and leaves the drawing state alone; `skipRotation` false is the Java as written |
| TestDisplay.Display.Redraw | test/TestDisplay.java:80-123 | a redraw makes a cache of the new size with every point drawn in order, no camera, and `pointsDrawn` at the list's size |
| TestDisplay.Display.DrawNewPoints | test/TestDisplay.java:135-147 | the points from `pointsDrawn` on are drawn, in order |
| TestDisplay.Display.DrawNewCameras | test/TestDisplay.java:149-173 | the cameras from `camerasDrawn` on are drawn, in order |
| TestDisplay.Display.Update | test/TestDisplay.java:125-179 | an update draws the new points and then the cameras from `camerasDrawn` on, and only `pointsDrawn` catches up |
| TestDisplay.Display.RenderFrame | test/TestDisplay.java:182-203 | after a frame the cache holds every point exactly once, in order; a size change rebuilds it without cameras, an update draws every camera again because `camerasDrawn` stays 0 |
| Wire.BigEndianRoundTrip | src/position.rs:14-25 | reading back the `n` big-endian bytes of a number gives it modulo 256^n |
| Wire.BigEndianBytesRoundTrip | src/position.rs:14-25 | encoding the value of any byte string at its own width gives the string back |
| Wire.F64RoundTrip | src/position.rs:14-25 | `f64::from_be_bytes` undoes `f64::to_be_bytes` bit for bit |
| Wire.F64BytesRoundTrip | src/cv.rs:335-337 | any eight bytes are the big-endian bytes of the double they decode to |
| Wire.F64sRoundTrip | src/cv.rs:274-320 | the doubles of a matrix encoded one after another read back in 8-byte chunks as the same doubles |
| Wire.F64sBytesRoundTrip | src/cv.rs:316-320 | a byte string of whole chunks is the encoding of the doubles read from it |
| Wire.U16RoundTrip | server/examples/main.rs:221 | a length cast with `as u16` reads back as the length modulo 65536 |
| Wire.U16RoundTripExact | server/examples/main.rs:221 | a length below 65536 reads back unchanged |
| Wire.I32RoundTrip | server/examples/main.rs:201 | every `i32` reads back, as Java's `readInt` reads it, unchanged |
| Wire.U64RoundTrip | organizer/src/lib.rs:487-488 | every `u64` reads back from its big-endian bytes unchanged |
| Wire.AsciiIsUtf8 | client/src/main.rs:51 | ASCII text is valid UTF-8, so `String::from_utf8` accepts it |
| Wire.NatToDecimal | organizer/src/lib.rs:350 | decimal text has at least one digit, no leading zero, and one, two or three digits for numbers below 10, 100 and 1000 |
| Wire.DecimalRoundTrip | organizer/src/lib.rs:350 | the decimal text of a number denotes that number |
| Wire.Ipv4ToString | organizer/src/lib.rs:350 | an address's text is ASCII and 7 to 15 bytes long |
| Wire.ParseIpv4 | client/src/main.rs:53 | an address is parsed only from its own canonical dotted text |
| Wire.Ipv4TextIff | client/src/main.rs:53 | a text parses to an address exactly when it is that address's dotted text |
| Wire.Ipv4RoundTrip | client/src/main.rs:53 | parsing the text of an IPv4 address gives the address back |
| Wire.SocketAddrToString | server/examples/main.rs:214 | a socket address's text is the address's text, a colon and the port in decimal, all ASCII |
| Wire.Truncated | server/src/service.rs:213 | a datagram received into a buffer keeps its first `size` bytes, all of it when it fits |
| Wire.ByteStream.constructor | src/cv.rs:306 | a stream delivers exactly the given bytes |
| Wire.ByteStream.ReadExact | client/src/main.rs:40 | `read_exact` of `n` bytes takes exactly the next `n` bytes, or fails on a short stream having consumed it |
| Wire.ByteStream.ReadExactInto | src/cv.rs:310 | `read_exact` into a buffer prefix fills exactly that prefix from the stream and leaves the rest of the buffer alone |
| Wire.ByteSink.constructor | server/examples/main.rs:198 | a sink starts with nothing written |
| Wire.ByteSink.WriteAll | server/examples/main.rs:199-207 | `write_all` appends exactly the given bytes |
| Wire.ByteSink.WriteI32 | examples/main.rs:163 | `write_i32` appends the four big-endian bytes of the value |
| Wire.ByteSink.WriteU16 | examples/main.rs:164 | `write_u16` appends the two big-endian bytes of the value cast to `u16` |
| Wire.ByteSink.WriteF64 | examples/main.rs:167 | `write_f64` appends the eight big-endian bytes of the double |

## Left out

- IPv6 addresses: every socket address is IPv4, the only family the components bind.
- Floating-point arithmetic is not modelled and appears in the model only through oracle parameters: the `Lerp` interpolation, `calculate_position`/triangulation (`src/calc.rs`), `get_camera_distance_in_square`, and `avg_corners`/`relative_x` in `src/util.rs`. NaN is recognised by its bit pattern.
- OpenCV is not modelled: image decoding after the length-prefixed read, marker detection and tracking, calibration, and the camera capture. The client's per-iteration detector output is an input of its loop.
- The compass tasks and serial ports: the compass value is an oracle parameter of the server's position update.
- Concurrency and async scheduling: tokio tasks, the server's locks, the broadcast channel and the Java threads' interleaving. The server task and the viewer's reader are modelled one message at a time, and cancellation is modelled as one more kind of receive result.
- `with_cancellation_token`, `get_event_channel` and `stop` of the server handle: they only wire up cancellation and channels.
- The `Instant::now()` that `get_position` and `is_valid` read: modelled as a parameter, and as the receive instant inside the server task.
- Partial writes on I/O errors: a write either appends all its bytes or is not modelled as failing.
- Console I/O (`println!`, prompts on stdin, `get_from_stdin`): `choice` and `yes_no_choice` take the line read as a parameter.
- The Java viewer's Swing drawing, pixel mapping, hue cycling, the lines to the last point, and the 30 ms sleep. Only which points and cameras reach the cache is modelled.
- Organizer.ScanSilence and Organizer.ScanReplyOverwrites: they state the Unreachable pass and the merge on receive sequences that `scan` does not produce from its start, since its loop receives for the whole 2 s window and a read timeout fails it (`Organizer.SilenceTimesOut`, `Organizer.ScanNeedsLateReply`); `Organizer.PacedScanSucceeds` gives the runs that do end normally.
- Organizer.Receives: handling a reply takes no time, so `Instant::now()` is the arrival time of the last reply received; the few microseconds the loop body takes are not modelled.
- The organizer's `update_info` and `start_server`, and the accept loop, interface enumeration and fov prompt of `start_host`: they are network glue around the modelled scan, image loop and configuration write.
- The client's outer `main` loop, its `get_config` image loop and its calibration cache file: the cache's presence is a parameter.
- CLI drivers and examples other than the two event writers, `src/info.rs` and `src/constants.rs` (types and duplicated masks only).
- TestDisplay.DecodeModifiedUtf8: decodes the one-, two- and three-byte forms of Java's modified UTF-8; the JDK's exception messages are not modelled, only that malformed text ends the reader.
- CommonLib.LowerString: lower-cases ASCII only, because Rust's Unicode `to_lowercase` tables are not modelled; no non-ASCII character lowers to the letters of "y" or "yes", so `yes_no_choice` is unaffected.
- Util.Center: the `i32` additions are unbounded here, so the overflow (a panic in a debug build, a wrap-around in a release build) of a rectangle near the `i32` limits is not modelled.
- Util.Abs: the `i32` negation is unbounded here, so the overflow (a panic in a debug build, a wrap-around in a release build) of `abs` on `i32::MIN` is not modelled.
- Util.BoundingToRect: the `i32` subtractions and additions of the offset are unbounded here, so the overflow (a panic in a debug build, a wrap-around in a release build) for corners or an offset near the `i32` limits is not modelled; the corners are given as integers, so the `as i32` cast of the `f32` coordinates is left out too.
- Util.DrawX: the `i32` additions and subtractions of 10 are unbounded here, so the overflow (a panic in a debug build, a wrap-around in a release build) for a point within 10 of the `i32` limits is not modelled.
- Service.Command: decodes with the corrected decoder, so it does not capture that the decoder as written panics on an InfoUpdate datagram whose IP is not UTF-8, such as the bytes 0x1f, 0, 1, 0xFF (common/src/hosts.rs:265-279); `Service.AsWrittenDecoderPanics` exhibits that datagram.
- Service.Background.AwaitStart: uses `Service.Command`, so an InfoUpdate datagram with an invalid UTF-8 IP is ignored here, while as written it panics the waiting task.
- Service.Background.Handle: uses `Service.Command` and the intended Disconnect, so it does not capture the decoder's panic on an invalid InfoUpdate, nor that as written a Disconnect reports the entry after the removed one or panics when the removed entry was the last.
- Service.Background.RemoveClient: broadcasts the removed client's address; as written the event reads the entry that follows it, and indexes out of bounds when it was the last (`Service.DisconnectAsWritten`).
- Service.Background.Serve: serves with `Service.Command` and the intended Disconnect, so the as-written panics of the decoder and of the Disconnect event are not captured.
- Service.Background.Run: waits and serves as `AwaitStart` and `Serve` do, so it leaves out the same as-written panics.
- Client.WaitForOrganizer: decodes with the corrected decoder, so an InfoUpdate datagram with an invalid UTF-8 IP is ignored here, while as written the conversion at client/src/main.rs:119 panics.
- Client.InnerLoop: decodes with the corrected decoder, so the as-written panic of the conversion at client/src/main.rs:194 on such a datagram is not captured.
- Generational.GenerationalValue.Set: the generation is an unbounded natural, so the `usize` overflow after 2^64 sets is not modelled.
- Generational.GenerationalValue.Get and Generational.GenerationalValue.Generation: they only return a field, so they carry no contract; `Set` and `Display` state what the fields hold.

## Findings

| source | as written | input that shows it | evidently intended | confidence | as-written member | corrected member |
|---|---|---|---|---|---|---|
| common/src/hosts.rs:203-228, 265-279 | the InfoUpdate encoder writes the IP length where the tag 0x1f belongs, and the decoder's position slice is 26 bytes, so it can never build the 24-byte array | any InfoUpdate whose IP is shorter than 256 bytes: its encoding starts with 0x00 and is refused; an InfoUpdate frame with an invalid UTF-8 IP makes the decoder panic | tag first, then the IP, the 24-byte position, the fov flag and the fov, all read back | not executed | CommonHosts.InfoUpdateNeverRoundTrips | CommonHosts.CorrectedRoundTrip |
| organizer/src/lib.rs:222-242 | `get_server` matches hosts that are Idle clients or configless clients | a table holding only a Running server gives NoServer; one holding only an Idle client returns that client as the server | count the Running or Idle servers, as `src/utils.rs` does | not executed | Organizer.GetServerMissesServers | Organizer.Organizer.GetServerCorrected |
| test/TestDisplay.java:31-36 | kind 0 reads two doubles, but the server writes three | one position frame with rotation 1.0 gives its point and then stops the reader on the unknown kind 0x3FF00000 | read and drop the rotation too, so a stream of position and connect frames reads back whole | not executed | TestDisplay.AsWrittenMisframesPosition | TestDisplay.ReadsServerStream |
| server/src/service.rs:340-349 | the Disconnect event reads index i after `remove(i)` | disconnecting the first of two clients reports the second one's address; disconnecting the only client indexes out of bounds | report the address of the removed client | not executed | Service.DisconnectAsWrittenMisreports | Service.DisconnectRemovesFirst |

# Verification of the rugged telematics library

This project models the logic of the C library in the telematics layer, and of the A/B boot
script beside it, in Dafny, and proves what that logic promises. `dafny verify dfyconfig.toml`
checks all of it.

| file | models | what is proved |
|---|---|---|
| `CanText.dfy`, `CanCodec.dfy`, `CanLong.dfy`, `CanMeaning.dfy`, `CanPrinted.dfy`, `CanLongMeaning.dfy` | the CAN frame text codec of `can_lib.c` | the in-place parser and both printers compute text functions; printing and parsing undo each other exactly for the well-formed frames; the grammar and both printed forms character by character |
| `Netlink.dfy`, `NetlinkMeaning.dfy`, `NetlinkAck.dfy`, `AckMeaning.dfy` | the link request and the reply walk of `can_comm.c` | a standard walk recovers exactly what was requested, by attribute numbers and bytes; the reply walk ends, and each of its outcomes has an exact condition |
| `CanRequest.dfy` | `can_write`, `can_read` and the cached sockets of `can_comm.c` | one request at a time, each answered through a fresh OBD socket |
| `NmeaTokens.dfy`, `NmeaMeaning.dfy`, `NmeaReader.dfy` | the byte loop of `get_gps_data` | it refines a tokeniser and a selection of sentences, both characterised on the stream |
| `NetworkHandshake.dfy`, `HandshakeProgress.dfy` | `network_status` between the application and manager threads | safety over every interleaving; no deadlock |
| `BringUp.dfy`, `BringUpMeaning.dfy` | the phases of `network_manager` | every run follows the specified order, with bounded counters; what follows each answer |
| `BearerFallback.dfy` | `establish_connection` and what it calls in `4g.c` | termination, order of the modes, what a result of 0 means |
| `IioSort.dfy`, `IioLayout.dfy`, `IioDecode.dfy`, `IioScan.dfy`, `IioMeaning.dfy` | the sensor channels and scans of `iio_utils.c`, `mag.c` and `acc_ism330dlc.c` | stable sort, layout, and samples read back as they were written |
| `BootSlots.dfy` | `boot.sh` | which slots a run of boots starts |

`Common.dfy` and `Arith.dfy` hold integer ranges and lemmas on division.

The C functions that fill a buffer or update globals are methods on arrays and classes, each
proved against a function of its input or its old state; the laws are lemmas about those
functions. The `Meaning` modules, and `CanPrinted` and `HandshakeProgress`, say what the functions
compute by literal numbers, characters, bytes and answers. Calls to the outside (sockets, AT
commands, `CheckLink`, the clock, `select`) are parameters, functions of the number of the call, or
lists of answers, and the theorems hold for all of them. Concurrency is a state machine whose steps
are calls and single accesses to `network_status` and `nl_socket`.

Where a property holds under a condition only, or the code does what its comments do not say:

* Printing and parsing a frame is the identity exactly for `WellFormed` frames, and normalising a
  string exactly for digits that `IdDigitsFit`; `FFF#` is accepted but prints as `7FF#`. A
  comment in `can_lib.c` (line 219) says that error frames never have RTR set; the code prints
  and parses such frames, and the round trip covers them. `lib_can.h` writes CAN_ERR_FLAG as
  0x2000000; the bit the code tests is 0x20000000, and the documented example 32345678 has it.
* The reply walk trusts a length of 0x80000000 to 0x8000000F, because subtracting the header size
  overflows: it can then run out of the datagram, or take an error message with error 0 for an
  acknowledgement (`MisledMeans`, with `StrayExists` and `FalseAckExists` as inputs). A datagram
  without such a length is walked inside its bounds, and success then means a whole
  acknowledgement (`TameIsSafe`).
* A socket left open between calls does not always carry the user filter, and `CanWrite` and
  `CanRead` say exactly when it does. A `can_write` that opens a socket and does not succeed
  leaves it open, and a refused one leaves it with the empty filter although every socket call
  succeeded (`RefusedWrite`). While a request is pending, `can_read` opens its socket with the OBD
  filter; it takes descriptor 0 for `no socket` and does not close it afterwards, after a timeout
  as little as after an answer. This happens exactly where descriptor 0 was free or was the cached
  value, which `can_read` itself closes; the cached values are 0 at first, so it happens when the
  first `can_read` of a process follows its first `can_write` (`FirstRequest`).
* Both the waiting application and the link listener test and then close `nl_socket`. Every handle
  is closed once as long as they do not overlap there (`ClosedOnce`), and where they do the same
  handle can be closed twice (`ClosedTwice`).
* `E_GPS_NO_REQ_NMEA` cannot be returned for any request at all.
* `establish_connection` stops at 75 dials, since each turn of its loop takes at least four
  seconds of a 60-second window. It may return -1 although the link check after its last dial,
  whose result it overwrites, succeeded (`LateLink`).
* The opening lines of `boot.sh` print the counter of slot B for both slots; the model has no
  output.

## Model

| member | source | states |
|---|---|---|
| CanText.FrameRoundTrip | recipes-rtd-library-source/rtd-library-source/files/src/can_lib.c:118-246 | for every frame, either separator setting and either width: parsing the printed text gives back exactly that frame and the matching MTU if and only if the frame is well formed (11-bit standard, extended or error identifier, length within the width, flags, RTR and padding as the form can carry them) |
| CanText.ParseCompactText | recipes-rtd-library-source/rtd-library-source/files/src/can_lib.c:199-246 | for every frame, well formed or not, the printed text is accepted and parses to the canonical part of the frame |
| CanText.CanonFixed | recipes-rtd-library-source/rtd-library-source/files/src/can_lib.c:199-246 | a frame is its own canonical part exactly when it is well formed |
| CanText.Normalisation | recipes-rtd-library-source/rtd-library-source/files/src/can_lib.c:126-197 | for every accepted string: printing the parsed frame and parsing again gives the same frame, whatever dots, letter case or trailing text the string had, if and only if its identifier digits fit the format |
| CanText.ParsedWellFormed | recipes-rtd-library-source/rtd-library-source/files/src/can_lib.c:126-197 | what the parser returns is a well-formed frame exactly when the identifier digits fit |
| CanText.SmallIdsFit | recipes-rtd-library-source/rtd-library-source/files/src/can_lib.c:132-151 | three digits up to 7FF and eight digits up to 3FFFFFFF always fit |
| CanText.WideStandardIdIsLost | recipes-rtd-library-source/rtd-library-source/files/src/can_lib.c:132-139 | `FFF#` is accepted but is not reproduced by printing: the input that shows the law has a condition |
| CanText.IdDigitsValue | recipes-rtd-library-source/rtd-library-source/files/src/can_lib.c:61-71 | the printed identifier digits spell the identifier |
| CanText.ScanDataText | recipes-rtd-library-source/rtd-library-source/files/src/can_lib.c:178-193 | scanning a printed payload, with or without dots, gives back the payload |
| CanMeaning.DigitValues | recipes-rtd-library-source/rtd-library-source/files/src/can_lib.c:104-116 | the hexadecimal characters are exactly 0-9, A-F and a-f; each has the value of its place, in either case, and every other character has 16 |
| CanMeaning.DigitWeight | recipes-rtd-library-source/rtd-library-source/files/src/can_lib.c:134-148 | the k-th of n digits counts for its value times 16 to the power n-1-k |
| CanMeaning.CaseIsFree | recipes-rtd-library-source/rtd-library-source/files/src/can_lib.c:104-197 | for every string, the upper-cased string parses to the same result |
| CanMeaning.PayloadMeans | recipes-rtd-library-source/rtd-library-source/files/src/can_lib.c:178-194 | the payload loop accepts a text if and only if it is pairs of hexadecimal digits, each after a dot or not, ended by NUL unless the frame is full, and then reads the bytes that the pairs spell |
| CanMeaning.SplitParses | recipes-rtd-library-source/rtd-library-source/files/src/can_lib.c:132-150 | an accepted string is three or eight digits, a `#` and a body; three digits are the identifier word, and eight have bit 31 added unless bit 29 or bit 31 is there |
| CanMeaning.AcceptedSplits | recipes-rtd-library-source/rtd-library-source/files/src/can_lib.c:129-153 | no other string is accepted |
| CanMeaning.RemoteBody | recipes-rtd-library-source/rtd-library-source/files/src/can_lib.c:155-163 | a body starting with R or r is a remote request with its length digit, 0 without one or for a digit above 8 |
| CanMeaning.ClassicBody | recipes-rtd-library-source/rtd-library-source/files/src/can_lib.c:178-196 | a body that starts with neither is the payload of a classic frame of at most 8 bytes, zeros behind it |
| CanMeaning.FdBodyMeans | recipes-rtd-library-source/rtd-library-source/files/src/can_lib.c:165-196 | a body that starts with `#` is a CAN FD frame with the flags digit and a payload of at most 64 bytes |
| CanPrinted.RemoteExamples | recipes-rtd-library-source/rtd-library-source/files/inc/rugged_telematics_lib/lib_can.h:145-150 | the documented remote requests parse as documented |
| CanPrinted.ErrorExample | recipes-rtd-library-source/rtd-library-source/files/inc/rugged_telematics_lib/lib_can.h:156 | 32345678#112233 is an error frame with three bytes |
| CanPrinted.PrintedId | recipes-rtd-library-source/rtd-library-source/files/src/can_lib.c:205-217 | the printed identifier is eight upper-case digits of an error or extended identifier, three of a standard one, and they spell it |
| CanPrinted.PrintedByte | recipes-rtd-library-source/rtd-library-source/files/src/can_lib.c:238-243 | byte i stands at column 3i with separators and 2i without, high digit first, in upper case, with a dot before all but the first |
| CanPrinted.PrintedBody | recipes-rtd-library-source/rtd-library-source/files/src/can_lib.c:219-245 | the body is R with a length of 1 to 8, or `#`, the flags digit and the payload (after a dot with separators), or the payload |
| CanCodec.ParseCanframe | recipes-rtd-library-source/rtd-library-source/files/src/can_lib.c:118-197 | the in-place parser returns 0 exactly for the strings the grammar refuses, and otherwise the MTU with the frame filled in as the grammar says |
| CanCodec.ReadIdDigits | recipes-rtd-library-source/rtd-library-source/files/src/can_lib.c:134-148 | the digit loop accepts exactly hexadecimal digits and leaves their value in can_id, although the digits are or-ed in from the top |
| CanCodec.ReadPayload | recipes-rtd-library-source/rtd-library-source/files/src/can_lib.c:178-194 | the byte loop stores exactly the scanned payload over zeros and its length, or refuses |
| CanCodec.ReadByte | recipes-rtd-library-source/rtd-library-source/files/src/can_lib.c:180-191 | one turn of the byte loop: one byte stored, the end of the text, or a refusal, each exactly when the scan says so |
| CanCodec.SprintCanframe | recipes-rtd-library-source/rtd-library-source/files/src/can_lib.c:199-246 | the printer writes the compact form and its terminator at the start of the buffer and changes nothing behind them |
| CanCodec.PutId | recipes-rtd-library-source/rtd-library-source/files/src/can_lib.c:61-68 | digits written last to first are the identifier's digits, and no other character changes |
| CanCodec.PutPayload | recipes-rtd-library-source/rtd-library-source/files/src/can_lib.c:238-243 | the payload loop writes the payload text with its separators |
| CanCodec.EmittedRest | recipes-rtd-library-source/rtd-library-source/files/src/can_lib.c:238-243 | what the loop has written and the text of the remaining bytes always make up the payload text |
| CanLong.SprintLongCanframe | recipes-rtd-library-source/rtd-library-source/files/src/can_lib.c:248-364 | the long printer writes the long form of any view and its terminator, and beyond them changes only the first 15 characters |
| CanLong.RegionWidth | recipes-rtd-library-source/rtd-library-source/files/src/can_lib.c:292-326 | in every view the data region takes exactly dlen * len columns |
| CanLong.RegionToken | recipes-rtd-library-source/rtd-library-source/files/src/can_lib.c:292-326 | the k-th byte's digits stand at columns dlen*k+1 to dlen*(k+1) of the region |
| CanLong.SwappedTokens | recipes-rtd-library-source/rtd-library-source/files/src/can_lib.c:292-326 | the swapped view holds the byte tokens of the plain view in reverse order |
| CanLong.FixedColumns | recipes-rtd-library-source/rtd-library-source/files/src/can_lib.c:335-363 | for up to 8 bytes the ASCII text opens, and ERRORFRAME ends, in columns that do not depend on the payload length |
| CanLong.DataRegion | recipes-rtd-library-source/rtd-library-source/files/src/can_lib.c:290-326 | the data region stands right behind the identifier and length columns |
| CanLongMeaning.PrintedHead | recipes-rtd-library-source/rtd-library-source/files/src/can_lib.c:254-290 | identifier, indentation, blanks and the length in one or two decimal digits between brackets |
| CanLongMeaning.BitsSpell | recipes-rtd-library-source/rtd-library-source/files/src/can_lib.c:293-306 | the eight characters of the binary view are 0 or 1 and spell the byte |
| CanLongMeaning.ShownByte | recipes-rtd-library-source/rtd-library-source/files/src/can_lib.c:292-326 | byte k takes nine columns in the binary view and three otherwise, a backquote before it from the second on in the swapped view and a blank in all other places |
| CanLongMeaning.ShownCharacter | recipes-rtd-library-source/rtd-library-source/files/src/can_lib.c:341-363 | the ASCII column shows 0x20 to 0x7E as the character and any other byte as a dot |
| CanLongMeaning.PrintedEnd | recipes-rtd-library-source/rtd-library-source/files/src/can_lib.c:335-363 | for up to 8 bytes, the fixed column, and from there ERRORFRAME or the ASCII text between its quotes |
| Netlink.SetReq.Build | recipes-rtd-library-source/rtd-library-source/files/src/can_comm.c:273-350 | the request built in place: headers, link flags, 4-aligned length of at most 148 of 1056 bytes, and after the headers exactly the encoding of LINKINFO{KIND can, DATA{requested attributes in order}}; type 16, flags 5, and refused exactly for an unknown device or a state above 2 |
| Netlink.RequestDecodes | recipes-rtd-library-source/rtd-library-source/files/src/can_comm.c:309-350 | three standard attribute walks over the built buffer recover LINKINFO, KIND `can`, and DATA holding exactly the requested attributes in order |
| NetlinkMeaning.RequestMeans | recipes-rtd-library-source/rtd-library-source/files/src/can_comm.c:309-350 | by numbers and bytes: attribute 18 alone; in it 1 with the bytes c, a, n, and 2; in that exactly the attributes the structure asks for |
| NetlinkMeaning.RequestedMeans | recipes-rtd-library-source/rtd-library-source/files/src/can_comm.c:319-342 | what it asks for, both ways: type 6 with the delay if and only if the delay is above 0 or switched off, 7 with 1 if and only if a restart is asked for, 1 for the nominal bit timing, 9 for that of the data phase, 5 for the control mode; nothing else |
| NetlinkMeaning.RequestedInOrder | recipes-rtd-library-source/rtd-library-source/files/src/can_comm.c:319-342 | in the order 6, 7, 1, 9, 5, none twice |
| NetlinkMeaning.AttributeBytes | recipes-rtd-library-source/rtd-library-source/files/src/can_comm.c:72-112 | an attribute is its length and type in little-endian bytes, its payload, and zeros up to a multiple of four |
| Netlink.LinkInfoDecodes | recipes-rtd-library-source/rtd-library-source/files/src/can_comm.c:309-350 | the same for any list of attributes that fits, so both patched lengths are right |
| Netlink.WalkEncodeAll | recipes-rtd-library-source/rtd-library-source/files/src/can_comm.c:72-112 | walking any row of encoded attributes gives back exactly those attributes |
| Netlink.RequestedFits | recipes-rtd-library-source/rtd-library-source/files/src/can_comm.c:319-342 | whatever combination of optional fields is requested, the attributes fit |
| Netlink.SetReq.AddattrL | recipes-rtd-library-source/rtd-library-source/files/src/can_comm.c:93-112 | appends one encoded attribute and keeps the buffer 4-aligned and zero behind it, where there is room |
| Netlink.SetReq.Addattr32 | recipes-rtd-library-source/rtd-library-source/files/src/can_comm.c:72-91 | refuses, changing nothing, exactly when the message would pass the bound |
| Netlink.SetReq.PatchLength | recipes-rtd-library-source/rtd-library-source/files/src/can_comm.c:344-349 | storing the distance to the tail as rta_len turns an empty attribute followed by bytes into the attribute that holds those bytes |
| NetlinkAck.AckWalk | recipes-rtd-library-source/rtd-library-source/files/src/can_comm.c:164-194 | the reply walk ends on every datagram, after k whole non-error messages with 16k at most the datagram size plus 3, with an outcome that the place reached justifies |
| NetlinkAck.OneEnd | recipes-rtd-library-source/rtd-library-source/files/src/can_comm.c:164-194 | that place and outcome are the only ones |
| NetlinkAck.AckedMeans | recipes-rtd-library-source/rtd-library-source/files/src/can_comm.c:162-195 | the walk of a datagram reports success if and only if it comes to an error message with error 0 and full size inside the remaining count, or to one whose length field overflows |
| NetlinkAck.HeaderCheck | recipes-rtd-library-source/rtd-library-source/files/src/can_comm.c:165-175 | the 32-bit test of a header refuses exactly the lengths below 16 or above the remaining count, save for the sixteen that overflow |
| NetlinkAck.StrayMeans | recipes-rtd-library-source/rtd-library-source/files/src/can_comm.c:162-195 | the walk of a datagram leaves it if and only if it comes to a message that is not an error and whose length field is 0x80000000 to 0x8000000F |
| NetlinkAck.TameIsSafe | recipes-rtd-library-source/rtd-library-source/files/src/can_comm.c:162-195 | for every datagram that holds no such length at any 4-aligned offset where a header could be: the walk stays inside it, and success is reported if and only if the walk comes to a whole acknowledgement |
| NetlinkAck.MisledMeans | recipes-rtd-library-source/rtd-library-source/files/src/can_comm.c:162-195 | the exact condition: the walk leaves the datagram, or reports success without an acknowledgement, if and only if it comes to an overflowing length in a message that is not an error or is an error 0 |
| NetlinkAck.StrayExists | recipes-rtd-library-source/rtd-library-source/files/src/can_comm.c:165-194 | a sixteen-byte datagram whose walk leaves it |
| NetlinkAck.FalseAckExists | recipes-rtd-library-source/rtd-library-source/files/src/can_comm.c:165-186 | a sixteen-byte datagram, too short for an acknowledgement, whose walk reports success |
| AckMeaning.Fields | recipes-rtd-library-source/rtd-library-source/files/src/can_comm.c:165-185 | length, type and error are read from little-endian bytes, length and error as signed numbers; a length overflows exactly from 0x80000000 to 0x8000000F |
| AckMeaning.RefusedMeans | recipes-rtd-library-source/rtd-library-source/files/src/can_comm.c:165-190 | a datagram is refused if and only if the walk comes to a length out of bounds, an error message that is too short or has an error, or an overflowing error message with an error |
| AckMeaning.NextMeans | recipes-rtd-library-source/rtd-library-source/files/src/can_comm.c:164-194 | the next datagram is awaited if and only if the walk comes to a place with 0 to 15 bytes left |
| AckMeaning.WalkMeans | recipes-rtd-library-source/rtd-library-source/files/src/can_comm.c:191-194 | the walk starts at the first byte and goes on behind each whole message that is no error, at the next multiple of four |
| AckMeaning.ErrorMessage | recipes-rtd-library-source/rtd-library-source/files/src/can_comm.c:177-190 | a 36-byte error message alone acknowledges if and only if its error is 0, and refuses otherwise |
| NetlinkAck.WaitForAck | recipes-rtd-library-source/rtd-library-source/files/src/can_comm.c:162-195 | the outer loop returns 0 if and only if the first datagram whose walk does not ask for the next one is acknowledged, and -1 if and only if it is refused |
| CanRequest.CanPort.CanWrite | recipes-rtd-library-source/rtd-library-source/files/src/can_comm.c:919-1033 | keeps the invariant of the socket cache; returns 0 exactly when the text parses, the socket opens, the interface is there and takes the frame, bind and write succeed and no request is pending, condition by condition; then, and only then, the frame is logged as sent and a request is pending; a write during a pending request is refused and clears the request; the exact table of sockets left open: where all carried the user filter, all still do if and only if the write succeeded or opened no socket |
| CanRequest.CanPort.CanRead | recipes-rtd-library-source/rtd-library-source/files/src/can_comm.c:1035-1168 | keeps the invariant; an extended identifier comes back as its low 29 bits, and nothing else of the frame changes; a pending request is read through a socket opened in this call with the OBD filter; other frames come through a socket with the user filter; a timeout leaves the request pending; the exact cache and table of sockets left open: where all carried the user filter, all still do unless the new socket of a pending request is at descriptor 0, which was free or cached, or a socket whose set-up failed is kept; an OBD socket is left open if and only if descriptor 0 was free or cached |
| CanRequest.FirstRequest | recipes-rtd-library-source/rtd-library-source/files/src/can_comm.c:919-1168 | the first input for which the property of left-open sockets fails: the first can_write of a process and then its first can_read, which closes descriptor 0 and opens its socket there |
| CanRequest.RefusedWrite | recipes-rtd-library-source/rtd-library-source/files/src/can_comm.c:1011-1023 | the second input: two writes in a row, of which the refused one leaves its socket open with the empty filter and no OBD socket is open |
| CanRequest.SentFrame | recipes-rtd-library-source/rtd-library-source/files/src/can_lib.c:73-102 | the frame of any accepted text goes out with the least of the lengths 0-8, 12, 16, 20, 24, 32, 48, 64 that holds it, or unchanged where it is a classic one |
| CanRequest.OpensAnew | recipes-rtd-library-source/rtd-library-source/files/src/can_comm.c:1055-1066 | closing what is cached for a bus and caching a new socket keeps the invariant |
| CanRequest.Separated | recipes-rtd-library-source/rtd-library-source/files/src/can_comm.c:1011-1022 | over any log the calls can produce, two frames sent are separated by a received answer or a refused write |
| CanRequest.LogSnoc | recipes-rtd-library-source/rtd-library-source/files/src/can_comm.c:1011-1022 | the log keeps that property, and the flag is exactly `a request is pending` |
| CanRequest.CanPort.ReadInit | recipes-rtd-library-source/rtd-library-source/files/src/can_comm.c:812-882 | opens a socket with the OBD filter exactly while a request is pending, with the user filter otherwise |
| CanRequest.CanPort.CloseCached | recipes-rtd-library-source/rtd-library-source/files/src/can_comm.c:728-747 | closes the cached socket of one bus and nothing else |
| CanRequest.CanPort.SetCanMaskAndFilter | recipes-rtd-library-source/rtd-library-source/files/src/can_comm.c:884-917 | stores the masks and filters in the kernel's form, or no filter when memory runs out |
| CanRequest.FilterEntryMeans | recipes-rtd-library-source/rtd-library-source/files/src/can_comm.c:897-908 | the bits of an entry: format and data-frame bits set in every mask and its other bits kept; a filter with any of the bits 20-27 gets exactly bit 31 as its flags and keeps its low 29 bits; any other filter is unchanged |
| NmeaReader.GetGpsData | recipes-rtd-library-source/rtd-library-source/files/src/u_gps.c:670-877 | for every byte stream whose sentences fit the buffers: of the sentences of the stream whose C string starts with the request, a request that starts with GPGSV gets the newest group and any other the last sentence, without one final line end; timeout exactly when that is empty; overflow exactly when the caller's buffer is too small |
| NmeaReader.OnByte | recipes-rtd-library-source/rtd-library-source/files/src/u_gps.c:719-805 | one byte keeps the loop variables and both buffers equal to the tokeniser's state after one more byte |
| NmeaReader.EndSentence | recipes-rtd-library-source/rtd-library-source/files/src/u_gps.c:737-797 | the end of a sentence updates buffer and group counter as the selection does |
| NmeaReader.SelectedStart | recipes-rtd-library-source/rtd-library-source/files/src/u_gps.c:823-842 | a selection never starts with a line end, so E_GPS_NO_REQ_NMEA is never returned, for any request |
| NmeaTokens.TokenizeSnoc | recipes-rtd-library-source/rtd-library-source/files/src/u_gps.c:719-805 | cutting at the first newline, NUL or dollar sign can be done byte by byte |
| NmeaTokens.PlainRequest | recipes-rtd-library-source/rtd-library-source/files/src/u_gps.c:775-790 | any request but GPGSV gets the text of the last sentence of the stream that starts with it, and nothing when there is none |
| NmeaTokens.GsvRequest | recipes-rtd-library-source/rtd-library-source/files/src/u_gps.c:749-797 | a GPGSV request gets the newest group: one to three consecutive GPGSV sentences in order, each with its end byte, within one unbroken run in which every fourth sentence closes a group and is dropped |
| NmeaTokens.SelectsNewestGroup | recipes-rtd-library-source/rtd-library-source/files/src/u_gps.c:749-797 | the same for any list of sentences and any prefix test |
| NmeaMeaning.StreamSentences | recipes-rtd-library-source/rtd-library-source/files/src/u_gps.c:719-805 | in a stream of junk without `$`, a `$`, a text, its end byte, and so on, the sentences are exactly those texts without carriage returns, with those ends |
| NmeaMeaning.StreamHasParts | recipes-rtd-library-source/rtd-library-source/files/src/u_gps.c:719-805 | every stream has that form |
| NmeaMeaning.PlainMeans | recipes-rtd-library-source/rtd-library-source/files/src/u_gps.c:700-790 | a request without the prefix GPGSV gets the last sentence whose C string starts with it |
| NmeaMeaning.GsvMeans | recipes-rtd-library-source/rtd-library-source/files/src/u_gps.c:700-797 | a request with that prefix, GPGSV itself among them, gets the C strings of the newest group joined |
| NetworkHandshake.Rounds | recipes-rtd-library-source/rtd-library-source/files/src/4g_monitor.c:909-924 | in every interleaving the events come in rounds: manager created, status 1, status -1, request seen, port closed, status 0, disable succeeds; none is missing, doubled or out of order |
| NetworkHandshake.StatusMoves | recipes-rtd-library-source/rtd-library-source/files/src/4g_monitor.c:1104-1160 | network_status only moves 0, 1, -1, 0, each move is made by its one owner and replaces the value it expects |
| NetworkHandshake.OneManager | recipes-rtd-library-source/rtd-library-source/files/src/init.c:553-579 | at most one manager thread has not left its loop |
| NetworkHandshake.DisableMeans | recipes-rtd-library-source/rtd-library-source/files/src/4g_monitor.c:1100-1165 | from the success of network_monitor_disable to the next event: the manager has seen the request, called gsm_at_port_close and stored 0 since, and every manager has left its loop |
| NetworkHandshake.HandleBelongsToListener | recipes-rtd-library-source/rtd-library-source/files/src/4g_monitor.c:821-892 | nl_socket holds a handle only while a manager is inside link_listener, from the store of the handle to the store of 0 |
| NetworkHandshake.ExitFindsItClosed | recipes-rtd-library-source/rtd-library-source/files/src/4g_monitor.c:916-921 | an exiting manager always finds nl_socket closed, so its own close is never reached |
| NetworkHandshake.ClosedOnce | recipes-rtd-library-source/rtd-library-source/files/src/4g_monitor.c:821-1163 | in every run in which the application and the listener are never both between their test of nl_socket and their store of 0, each stored handle is closed once, in order, but for the last one while it is open |
| NetworkHandshake.ClosedTwice | recipes-rtd-library-source/rtd-library-source/files/src/4g_monitor.c:1117-1123 | an interleaving in which both pass the test and close the same handle |
| NetworkHandshake.RunKeeps | recipes-rtd-library-source/rtd-library-source/files/src/4g_monitor.c:895-1165 | the whole reachable state is determined by the number of events so far |
| HandshakeProgress.RoundsHappen | recipes-rtd-library-source/rtd-library-source/files/src/init.c:553-579 | for every number there is a reachable state with exactly that many complete rounds behind it |
| HandshakeProgress.StopCanSucceed | recipes-rtd-library-source/rtd-library-source/files/src/4g_monitor.c:1100-1165 | from every reachable state in which a stop was asked for and not yet granted, whatever the manager is doing, there are steps to the success of network_monitor_disable in this round: the handshake never deadlocks |
| HandshakeProgress.PlacesReached | recipes-rtd-library-source/rtd-library-source/files/src/4g_monitor.c:821-924 | a manager can be brought to exactly those places of its code that are not the close of a handle after the loop |
| BringUp.Manager.NetworkManager | recipes-rtd-library-source/rtd-library-source/files/src/4g_monitor.c:895-1098 | every event of every run is the one the specification allows, in answer to the calls in their order, with the counters as specified at each top of the loop; a run stops only where the answers end or network_status was -1 |
| BringUp.HeadMeans | recipes-rtd-library-source/rtd-library-source/files/src/4g_monitor.c:909-1063 | at every top of the loop sim_reg_count is at most 9, sig_strength at most 3 and both connection counters at most 1 |
| BringUp.ThreeFailures | recipes-rtd-library-source/rtd-library-source/files/src/4g_monitor.c:1027-1056 | in every pass at most three dials or internet checks fail, although each counter stops at two and both are carried over |
| BringUpMeaning.ListenerMeans | recipes-rtd-library-source/rtd-library-source/files/src/4g_monitor.c:926-1085 | link_listener runs only after, in the same pass, the modem was found off, powered on with 0, a cell and an area code were read, a signal above 10 was read with 0, the connection and the internet check returned 0 and both tests of network_status did not find -1 |
| BringUpMeaning.NextEvent | recipes-rtd-library-source/rtd-library-source/files/src/4g_monitor.c:909-1085 | for every event of every run, the next one by the answers alone: which call follows which answer; a pass ends at a modem found on, a failed power-on, every tenth query without a cell and every fourth failed signal query of the whole run, a dial or internet check that fails as it has failed before, and a lost link; the loop ends at -1 |
| BringUpMeaning.HeadCounts | recipes-rtd-library-source/rtd-library-source/files/src/4g_monitor.c:896-912 | the four counters at every top of the loop are the failed queries modulo 10 and 4, and whether a dial or a check has failed since a connection was last given up |
| BringUp.ExitMeans | recipes-rtd-library-source/rtd-library-source/files/src/4g_monitor.c:1065-1072 | the loop is left only right after network_status was found to be -1 |
| BringUp.Manager.Register | recipes-rtd-library-source/rtd-library-source/files/src/4g_monitor.c:945-983 | registration goes on until a cell is known or the tenth failure since the last reset, counted across passes |
| BringUp.Manager.MeasureSignal | recipes-rtd-library-source/rtd-library-source/files/src/4g_monitor.c:985-1025 | the signal loop is left with a strength above 10, or at the fourth failed query since the last reset |
| BringUp.Manager.Connect | recipes-rtd-library-source/rtd-library-source/files/src/4g_monitor.c:1027-1062 | the connection loop is left with both checks passed, or when either counter passes 1 |
| BringUp.Manager.FindNetwork | recipes-rtd-library-source/rtd-library-source/files/src/4g_monitor.c:945-1025 | registration and signal, with the counters reset where they end the pass; the branch for a signal below 10 is dead |
| BearerFallback.Gsm.EstablishConnection | recipes-rtd-library-source/rtd-library-source/files/src/4g.c:957-1030 | terminates; 0 exactly when the last event is a successful CheckLink of a dial; modes 4, 3, 2, 1 in that order and each at most once; at most 75 dials; a full window of 60 seconds before every accepted mode; gives up only when the SIM is lost after a dial or every mode was tried; by the answer that ends the SIM query: READY dials, NOT, +CME ERROR or seven answers that mean nothing return E_GSM_SIM_NOT_DETECTED without a dial, a failing PIN command returns its code without one |
| BearerFallback.Gsm.DialInWindows | recipes-rtd-library-source/rtd-library-source/files/src/4g.c:972-1021 | the loop, with the measure (mode, seconds left in the window) |
| BearerFallback.LateLink | recipes-rtd-library-source/rtd-library-source/files/src/4g.c:983-997 | a run that returns -1 although the last link check, after the last dial, succeeded |
| BearerFallback.Gsm.EstablishNwConnection | recipes-rtd-library-source/rtd-library-source/files/src/4g.c:915-948 | the exact sequence of link checks and dials; 0 exactly when one of the checks succeeded, since a failed dial reports a SIM status and that is never 0 |
| BearerFallback.Gsm.SwitchMode | recipes-rtd-library-source/rtd-library-source/files/src/4g.c:985-1019 | sets the next mode down until one is accepted, or returns -1 when none is left |
| BearerFallback.Gsm.GetGsmSimStatus | recipes-rtd-library-source/rtd-library-source/files/src/4g.c:359-448 | status and code by the answer that ends the query: detected for READY, not detected for NOT, +CME ERROR or the seventh answer that means nothing, and the code of a failing PIN command with the status unchanged; never 0 |
| BearerFallback.Gsm.StopsMeans | recipes-rtd-library-source/rtd-library-source/files/src/4g.c:378-440 | a query ends at its first answer that decides, or at exactly the seventh that means nothing; a failed command or a pending PIN never ends it |
| BearerFallback.Gsm.SetGsmNetworkMode | recipes-rtd-library-source/rtd-library-source/files/src/4g.c:542-579 | the answer of the command, or the SIM status where there is no SIM |
| BearerFallback.Gsm.SignalStrengthSimStatus | recipes-rtd-library-source/rtd-library-source/files/src/4g.c:583-593 | a writer of sim_status: leaves it as the query sets it, never 0 |
| BearerFallback.Gsm.ReadBoot | recipes-rtd-library-source/rtd-library-source/files/src/4g.c:193-260 | a writer of sim_status: the status that the modem's start-up messages and the PIN dialogue give, never 0, and its failure code; `BootMeans` says which, message by message |
| BearerFallback.Gsm.GsmModemOn | recipes-rtd-library-source/rtd-library-source/files/src/4g.c:132-281 | a writer of sim_status through the dialogue and the mode setting, never 0; unchanged when the modem was on, never appeared, or the PIN is too long; otherwise the call ends with the failing PIN dialogue and its status, or after asking for the automatic mode with the status of that query |
| BearerFallback.Gsm.AwaitModem | recipes-rtd-library-source/rtd-library-source/files/src/4g.c:175-190 | the modem is looked for 32 times at most, until it is there |
| BearerFallback.Gsm.ReadBootMonitor | recipes-rtd-library-source/rtd-library-source/files/src/4g_monitor.c:140-208 | the manager thread's copy keeps a status of its own and writes sim_status in one case only, never 0 |
| IioSort.BsortChannelArrayByIndex | recipes-rtd-library-source/rtd-library-source/files/src/iio_utils.c:332-344 | the in-place bubble sort leaves the channels sorted by index, with channels of equal index in their old order |
| IioSort.Pass | recipes-rtd-library-source/rtd-library-source/files/src/iio_utils.c:337-343 | after x passes the last x places are final |
| IioSort.SortedIsUnique | recipes-rtd-library-source/rtd-library-source/files/src/iio_utils.c:332-344 | there is only one sorted stable rearrangement, so the result is fixed |
| IioSort.StableIsPermutation | recipes-rtd-library-source/rtd-library-source/files/src/iio_utils.c:332-344 | a stable rearrangement is a permutation |
| IioLayout.SizeFromChannelArray | recipes-rtd-library-source/rtd-library-source/files/src/iio_utils.c:1183-1200 | every location is the next multiple of the channel's size after the end of the channel before, nothing else changes, and the result is the end of the last channel |
| IioLayout.NextMultipleIsLeast | recipes-rtd-library-source/rtd-library-source/files/src/iio_utils.c:1189-1193 | that multiple is the least one |
| IioLayout.Disjoint | recipes-rtd-library-source/rtd-library-source/files/src/iio_utils.c:1183-1200 | the channels occupy disjoint ascending intervals |
| IioLayout.InsideScan | recipes-rtd-library-source/rtd-library-source/files/src/iio_utils.c:1183-1200 | all of them lie inside the scan |
| IioLayout.PaddingBound | recipes-rtd-library-source/rtd-library-source/files/src/iio_utils.c:1183-1200 | padding is at most the sum of bytes - 1 |
| IioDecode.FieldInserted | recipes-rtd-library-source/rtd-library-source/files/src/mag.c:459-486 | byte swap aside, shift, mask and sign extension recover any value in range from any word that holds it in its field, whatever the other bits |
| IioDecode.SignExtension | recipes-rtd-library-source/rtd-library-source/files/src/mag.c:475-478 | moving a field to the top of an int16_t and back extends its sign, for every width from 1 to 16 |
| IioMeaning.BytesMean | recipes-rtd-library-source/rtd-library-source/files/src/mag.c:462-466 | a big-endian channel reads 256 times its first byte plus the second, any other the reverse |
| IioMeaning.FieldMeans | recipes-rtd-library-source/rtd-library-source/files/src/mag.c:468-486 | for every word, whatever wrote it: the value lies in the signed or unsigned range of the field's width and agrees with the shifted word modulo two to that width |
| IioMeaning.FieldIsOnly | recipes-rtd-library-source/rtd-library-source/files/src/mag.c:468-486 | and no other value does |
| IioMeaning.ComponentMeans | recipes-rtd-library-source/rtd-library-source/files/src/acc_ism330dlc.c:509-587 | so every component of a scan is the field of the word that its channel's two bytes spell |
| IioScan.WriteIsRead | recipes-rtd-library-source/rtd-library-source/files/src/mag.c:414-457 | in a scan written channel by channel, every 2-byte channel reads back its own sample |
| IioScan.Sensor.Print2Byte | recipes-rtd-library-source/rtd-library-source/files/src/acc_ism330dlc.c:552-587 | the decoded value goes to the component of the channel's number, 0 to 2, and nowhere else |
| IioScan.Sensor.ProcessScan | recipes-rtd-library-source/rtd-library-source/files/src/acc_ism330dlc.c:509-550 | every component holds its channel's value from this scan, or what it held before |
| IioScan.Sensor.Read | recipes-rtd-library-source/rtd-library-source/files/src/mag.c:362-373 | the result is determined by the last complete scan within the bytes read, and is unchanged when there is none |
| IioScan.ReadStream | recipes-rtd-library-source/rtd-library-source/files/src/acc_ism330dlc.c:458-470 | reading a stream of written scans, whatever their other bytes, followed by an incomplete one or not, returns exactly the samples of the last complete one for channels 0 to 2, and nothing when there is none |
| BootSlots.Environment.Run | recipes-bsp/u-boot-scr/files/boot.sh:4-42 | one boot: the specified slot is started, with its root argument and load commands letter by letter, and only its own counter goes down, by one; or both counters become 3 and the board resets; an empty counter counts as 3, and without BOOT_ORDER A comes before B |
| BootSlots.BootMeans | recipes-bsp/u-boot-scr/files/boot.sh:12-42 | by the words of BOOT_ORDER: A or B is started if and only if it has attempts and no slot before it has, and a reset happens exactly when no listed slot has any |
| BootSlots.FromHexStops | recipes-bsp/u-boot-scr/files/boot.sh:18-27 | a counter's text is read up to its first character that is no hexadecimal digit |
| BootSlots.FirstFound | recipes-bsp/u-boot-scr/files/boot.sh:12-30 | the slot is the first listed one with attempts left, and there is none only when every listed slot has none |
| BootSlots.AttemptsUsedInOrder | recipes-bsp/u-boot-scr/files/boot.sh:4-42 | with both slots listed once, f and s attempts give exactly f boots of the first listed slot, s of the second, and then one reset |
| BootSlots.NoTwoResets | recipes-bsp/u-boot-scr/files/boot.sh:33-42 | with A or B listed, no run of boots resets twice in a row |
| BootSlots.HexRoundTrip | recipes-bsp/u-boot-scr/files/boot.sh:18-27 | a counter written as hexadecimal text is read back |

## Left out

- CanCodec.ParseCanframe: says nothing of the frame's content after a refused string, which callers may not use; the reserved bytes of the C structure are not part of the frame.
- CanCodec.SprintCanframe: buffer sizes are the caller's business, as in the code; the round-trip law is for maxdlen 8 and 64, the two documented values. `cs[8]` of a string shorter than eight characters counts as not being a `#`.
- CanLong.SprintLongCanframe: the printed text is specified for maxdlen up to 64, the size of the data array.
- Netlink.SetReq.AddattrL: requires room, because the code only prints a message on overflow; `Build` shows that the room is always there. The name lookup is a parameter, sending the message is not modelled, and the contents of the bit timing and control mode structures are plain bytes.
- NetlinkAck.AckWalk: what lies behind the receive buffer is arbitrary, and where the walk leaves the buffer the model stops. `sendmsg` and error messages printed are not modelled.
- CanRequest.CanPort.CanRead: `socket` is taken to return the lowest descriptor that is not in use, as POSIX says. For the three known bus names; with any other name the code reads an uninitialised descriptor. A socket cached before the filters were changed keeps the filters it was opened with, as in the code, and one whose set-up failed keeps the kernel's default. The semaphore is not modelled.
- CanRequest.CanPort.CloseCached: of `can_deinit` only the closing of the sockets; the wake-up check and the link shutdown are not modelled.
- CanRequest.CanPort.CanWrite: the results of the system calls are given by the caller; a write that fails after the socket was opened leaves it open, which the contract of `WriteFrame` states.
- NmeaReader.GetGpsData: requires every sentence, and a GSV group, to fit the 300-byte buffers, which the code does not check. `select` and `read` are a list of events, a `select` timeout ends the list, and the modem check and the port descriptor are parameters.
- NetworkHandshake.DisableMeans: disable need not return, since it can wait for ever by design; `StopCanSucceed` shows that it always can. There is one application thread. The application's wait may test `nl_socket` in any round, which covers both of its loops.
- BringUp.Manager.NetworkManager: a run is cut where the given answers end; delays, `gps_init`, the flight-mode calls and closing the AT port between passes are not modelled, and the `_monitor` dial functions are answers.
- BearerFallback.Gsm.GetGsmSimStatus: assumes that every query is answered in the end, without which the loop does not terminate; the texts of the modem are classified answers.
- BearerFallback.Gsm.EstablishConnection: the `pppd` and `killall` commands have no effect but through later link checks; the clock is in whole seconds.
- BearerFallback.Gsm.SignalStrengthSimStatus: only what `get_gsm_signal_strength` does to the SIM status.
- BearerFallback.Gsm.GsmModemOn: switching the modem's supply is not modelled; `asprintf` is taken to succeed, since its failure is not noticed there.
- BearerFallback.Gsm.ReadBootMonitor: of the manager thread's dial functions, the only part that writes `sim_status`; their own status is not followed further.
- CanRequest.FirstRequest: the entries of the OBD filter itself are not modelled, only which socket carries it.
- IioLayout.SizeFromChannelArray: requires sizes above zero and a sum of at most half of INT_MAX, so that no `int` overflows.
- IioDecode.FieldInserted: for fields that fit a 16-bit word; scaling to SI units in floating point is not modelled, nor are values of 4- and 8-byte channels, which the code only prints.
- IioScan.Sensor.Read: the scan is not empty; opening the device and `select` are not modelled.
- BootSlots.Environment.Run: `BOOT_ORDER` is a list of words that the loop goes through; the arithmetic of `test`, `setexpr` and hexadecimal text is that of U-Boot on 32 bits, with counters below 2^31; output, loading and starting the kernel are not modelled.
- I2C framing of the MCU, wake-up configuration, SMS, assisted GPS and the sample applications: device traffic and configuration files with little logic of their own.
- Bit rate, restart and interface helpers of `can_comm.c` around the request: they fill a structure and call the modelled functions.

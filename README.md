# Rozum Robotics servo API, host side, in Dafny

This project models the host side of the Rozum Robotics CANopen servo
drivers and proves properties of that model. The host talks to servo motors
through a USB-CAN dongle. Its parts are:

- **The C support code.**
  - The big-endian cursor codec and the range/clip macros (`usbcan_util`).
  - The ring-buffer helpers (`rb_tools`).
  - The little-endian typed put/get macros and the 24-bit float codec (`usbcan_types`).
  - The timespec helpers of the real-time tutorial header (`rt.h`).
  - The SDO abort-code table (`co_common`).
- **The USB-CAN protocol layer** (`usbcan_proto.c`, current and legacy versions).
  - The STX/length/CRC framing and the frame builders and parser.
  - The receive deframer over its ring buffer.
  - The per-device table of heartbeat ages, intervals and NMT states, which `usbcan_poll` ages.
  - The SDO request/response bookkeeping, the wait-argument checks and the device list.
- **The user API** (`api.c`).
  - Status mapping of SDO abort codes.
  - The `rr_describe_*` lookups and `rr_read_error_status`.
  - The parameter cache, the motion-point and clear-points calls, time calculation and the change-id sequence.
- **The firmware update tool** (`fw-update.c`): image preparation, block writes and the download state machine driven by received frames.
- **The Python bindings** (`rdrive` and the two legacy `rozum` packages).
  - The status and parameter constants.
  - The ctypes conversions.
  - The servo and interface registries, and the singleton metaclass.

State that the C code changes in place is modelled as Dafny classes: the
deframer, the device monitor, the legacy monitor, the servo with its
parameter cache, the firmware downloader and the Python registries. Their
methods carry `modifies` clauses and are proved against specification
functions. The pure parts are functions and lemmas.

The native library appears on the Python side only as a log of the calls made
into it; its results (handles and status codes) are inputs. The blocking SDO
transport is modelled as "send a request, then receive one reply or a
timeout", with the reply as an input. CRC16 and CRC32 are function-typed
parameters.

Each Dafny module covers one source component:

- Arith (arith.dfy): shared arithmetic (byte values, powers of 256, C division, bit or)
- UsbcanUtil (usbcan_util.dfy): c/src/usbcan_util.c, c/src/usbcan_util.h
- RbTools (rb_tools.dfy): src/rb_tools.c
- UsbcanTypes (usbcan_types.dfy): c/src/usbcan_types.h, src/usbcan_types.c
- Rt (rt.dfy): c/tutorial/rt.h
- CoCommon (co_common.dfy): c/src/co_common.c
- UsbcanFrame (usbcan_frame.dfy): framing, builders and parser of c/src/usbcan_proto.c
- UsbcanRx (usbcan_rx.dfy): the receive deframer of c/src/usbcan_proto.c
- UsbcanProto (usbcan_proto.dfy): device table, poll, receive callback and device list of c/src/usbcan_proto.c
- UsbcanLegacy (usbcan_proto_legacy.dfy): src/usbcan_proto.c
- ServoApi (api.dfy): c/src/api.c
- FwUpdate (fw_update.dfy): c/tools/fw-update-tool/fw-update.c
- PyConstants (py_constants.dfy): python/rozum/constants.py, python/rozum/servo.py
- PyRuntime (py_runtime.dfy): the ctypes behaviour the bindings rely on
- RdriveApi (py_rdrive.dfy): python/rdrive/servo/api.py
- RozumApi (py_rozum_api.dfy): python/rozum/servo/api.py
- RozumServo (py_rozum_servo.dfy): python/rozum/servo.py

The header c/src/usbcan_proto.h is older than c/src/usbcan_proto.c. Where
they differ, the model follows the .c file.

## Model

| member | source | states |
|---|---|---|
| UsbcanUtil.Max | c/src/usbcan_util.h:22 | MAX(a, b) is an upper bound of both arguments and equals one of them |
| UsbcanUtil.Min | c/src/usbcan_util.h:23 | MIN(a, b) is a lower bound of both arguments and equals one of them |
| UsbcanUtil.Clip | c/src/usbcan_util.h:28 | on a non-empty range CLIP lands in [l, h], leaves an in-range value alone and sends values below or above the range to l or h |
| UsbcanUtil.ClipL | c/src/usbcan_util.h:30 | CLIPL never goes below l and returns either the value or l |
| UsbcanUtil.ClipH | c/src/usbcan_util.h:31 | CLIPH never goes above h and returns either the value or h |
| UsbcanUtil.InRange | c/src/usbcan_util.h:34 | on a non-empty range INRANGE holds exactly on [l, h]; a == l passes even when l > h, and nothing else does then |
| UsbcanUtil.U32BytesRecombine | c/src/usbcan_util.h:46-49 | the four bytes U32_H8, U32_MH8, U32_ML8 and U32_L8 of a 32-bit word recombine to the word |
| UsbcanUtil.U16BytesRecombine | c/src/usbcan_util.h:44-45 | the two bytes U16_H8 and U16_L8 of a 16-bit word recombine to the word |
| UsbcanUtil.HexToBin | c/src/usbcan_util.h:51 | HEXTOBIN maps '0'-'9' to 0-9 and both 'A'-'F' and 'a'-'f' to 10-15, so every hexadecimal digit gives a nibble |
| UsbcanUtil.HexAccumBound | c/src/usbcan_util.c:3-13 | the register hexstr_to_int builds always fits in 32 bits |
| UsbcanUtil.HexAccumIsValue | c/src/usbcan_util.c:3-13 | over hexadecimal digits the shift-and-or register equals the string's hexadecimal value modulo 2^32 |
| UsbcanUtil.HexStrToInt | c/src/usbcan_util.c:3-13 | the loop shifts in exactly the first l characters and returns the specification register, below 2^32 |
| UsbcanUtil.HexStrToIntOfDigits | c/src/usbcan_util.c:3-13 | for digit strings hexstr_to_int returns the hexadecimal value of its first l characters modulo 2^32 |
| UsbcanUtil.GetUx | c/src/usbcan_util.c:15-25 | get_ux_ returns the x bytes at the cursor read big-endian, modulo 2^64, and advances the cursor by x |
| UsbcanUtil.GetIx | c/src/usbcan_util.c:27-37 | get_ix_ returns the same bytes sign-extended from bit 7 of the first byte (inspected even when x is 0), modulo 2^64, and advances the cursor by x |
| UsbcanUtil.BeBytesValue | c/src/usbcan_util.c:39-46 | the x bytes set_ux_ writes are v modulo 256^x, most significant first |
| UsbcanUtil.SetUx | c/src/usbcan_util.c:39-46 | set_ux_ writes the low x bytes of v most significant first at the cursor, advances it by x and leaves every other byte unchanged |
| UsbcanUtil.SetThenGet | c/src/usbcan_util.c:15-25 | get_ux_ at the cursor set_ux_ started from reads back v modulo 256^x (round trip) |
| RbTools.RbDistIsRemainder | src/rb_tools.c:20-23 | rb_dist is C's truncating remainder of h - t + sz by sz, and for positions inside the ring it is a distance in [0, sz) |
| RbTools.RbDistNext | src/rb_tools.c:20-23 | moving the head one slot on raises rb_dist by one, around the ring |
| RbTools.RbDistAdvance | src/rb_tools.c:20-23 | advancing the head by n (as writing n bytes does) raises rb_dist by n modulo the ring size |
| RbTools.RingCopyFrame | src/rb_tools.c:3-18 | a ring copy of n bytes leaves every destination slot outside the ring, or n or more steps ahead of the start, unchanged |
| RbTools.RingCopyAt | src/rb_tools.c:3-18 | when n fits in the destination ring, the slot i steps ahead of the start receives the source byte i steps ahead of the source start, for every i < n |
| RbTools.RbToRb | src/rb_tools.c:3-18 | rb_to_rb normalises both starts into their rings, leaves the destination equal to the ring-copy specification (source only read) and returns the destination position n slots on |
| UsbcanTypes.SizeOf | c/src/usbcan_types.h:47-60 | the element types the macros are instantiated for occupy 1, 2, 4 or 8 bytes |
| UsbcanTypes.LeBytesValue | src/usbcan_types.c:4-11 | the little-endian memory image of a value that fits in w bytes reads back as that value |
| UsbcanTypes.LeValueBytes | src/usbcan_types.c:4-11 | every w-byte image is the image of the value it reads as, so images and fitting values correspond one to one |
| UsbcanTypes.ImageLength | c/src/usbcan_types.h:22-31 | the run of images of n values of a w-byte type is n * w bytes long |
| UsbcanTypes.ImageInjective | c/src/usbcan_types.h:22-31 | two equally long runs of fitting values with the same memory image are the same values |
| UsbcanTypes.CopyIn | src/usbcan_types.c:4-11 | the memcpy wrapper writes the bytes at the offset and leaves every other byte of the buffer unchanged |
| UsbcanTypes.Put | c/src/usbcan_types.h:22-31 | usb_can_put_<type> writes the images of the n values back to back from the cursor, changes no byte outside that run and returns the cursor advanced by n * sizeof(type) |
| UsbcanTypes.PutOne | c/src/usbcan_types.h:25-29 | one pass of the put loop appends the next value's image to the run and advances the cursor by its size |
| UsbcanTypes.Get | c/src/usbcan_types.h:36-45 | usb_can_get_<type> returns n values that fit the type and whose images are exactly the bytes read, with the cursor advanced by n * sizeof(type) |
| UsbcanTypes.PutThenGet | c/src/usbcan_types.h:19-45 | get at the cursor put started from restores exactly the values put (round trip) |
| UsbcanTypes.PutFloat24 | src/usbcan_types.c:44-56 | usb_can_put_float24 writes bytes 1..3 of each value's 4-byte image, changes nothing else and advances the cursor by 3 per value |
| UsbcanTypes.GetFloat24 | src/usbcan_types.c:29-42 | usb_can_get_float24 fills bytes 1..3 of each zeroed result from the buffer, so every result is a 32-bit pattern whose lowest byte is 0; the cursor advances by 3 per value |
| UsbcanTypes.PutThenGetFloat24 | src/usbcan_types.c:29-56 | reading back what put_float24 wrote gives each 32-bit pattern with its lowest byte cleared (a lossy round trip) |
| UsbcanTypes.ClearLowByte | src/usbcan_types.c:33-35 | a 32-bit image with its byte 0 replaced by zero reads as the value minus its lowest byte |
| Rt.TimespecPtr.constructor | c/tutorial/rt.h:24 | a struct timespec reached through a pointer starts with the given fields |
| Rt.TimespecPtr.Normalize | c/tutorial/rt.h:24-31 | tsnorm replaces the timespec by its normalised form (same instant, tv_nsec moved into whole seconds) |
| Rt.NormalizedProps | c/tutorial/rt.h:24-31 | normalising keeps the instant, leaves tv_nsec below one second, makes a non-negative tv_nsec normal and changes nothing already below one second |
| Rt.GreaterStrictOrder | c/tutorial/rt.h:33-37 | tsgreater is irreflexive, asymmetric, transitive and total on distinct timespecs |
| Rt.GreaterIsLater | c/tutorial/rt.h:33-37 | on normal timespecs tsgreater holds exactly when the first instant is later |
| Rt.IntDiff | c/tutorial/rt.h:42 | the int-truncated difference always fits an int and is the exact difference when both fields and their difference fit |
| Rt.DiffNsExact | c/tutorial/rt.h:47-53 | for normal timespecs whose seconds and their difference fit an int, tscalcdiff_ns is the exact distance in nanoseconds |
| Rt.DiffUsNs | c/tutorial/rt.h:39-53 | tscalcdiff_us is tscalcdiff_ns divided by 1000, off by less than one microsecond (C's truncating division) |
| CoCommon.IncreasingOrdered | c/src/co_common.c:8-70 | in a run of table entries with increasing codes, every earlier code is below every later one |
| CoCommon.ErrorCodesDistinct | c/src/co_common.c:8-70 | the 60 codes of error_descs are pairwise distinct, so the first match of the search is the only one |
| CoCommon.HalvesDistinct | c/src/co_common.c:8-70 | the stack-error half and the abort-code half of the table share no code |
| CoCommon.StackErrorsIncrease | c/src/co_common.c:10-36 | the 27 stack error numbers increase from 100 to 600 |
| CoCommon.AbortCodesIncrease | c/src/co_common.c:37-69 | the 33 abort codes increase from 0, and all but the first lie above every stack error number |
| CoCommon.SdoDescribeError | c/src/co_common.c:72-85 | sdo_describe_error returns the description of an entry whose code equals err, or "n/a" exactly when no entry has that code |
| CoCommon.FirstDesc | c/src/co_common.c:74-84 | the first-match search loop over any table returns a matching entry's description or "n/a" when none matches |
| CoCommon.DescribeTableCode | c/src/co_common.c:72-85 | for every code in the table the description found is that entry's own |
| CoCommon.LocalTimeoutDescribed | c/src/co_common.c:69 | the library's local timeout code 0xffffffff is the last entry, described as "Timeout.", and no other entry carries it |
| CoCommon.CanOpenCmdNamesFrameTypes | c/src/co_common.c:88-102 | CAN_OPEN_CMD[k] names frame type k of usbcan_frame_type_t for k in 0..10 with non-empty, pairwise distinct names, and the twelfth entry is the closing empty string |
| UsbcanFrame.WrapInplace | c/src/usbcan_proto.c:272-284 | usbcan_wrap_inplace turns the payload already at offset 3 into the frame STX, 16-bit big-endian length, payload, big-endian CRC-16 of the payload; returns the frame size n + 5 and touches nothing beyond the frame |
| UsbcanFrame.PutHeader | c/src/usbcan_proto.c:277-278 | the frame starts with STX and the big-endian payload length, and the payload behind it is untouched |
| UsbcanFrame.SetMsg | c/src/usbcan_proto.c:292-296 | set_ux_ on msg = dst + 3 appends the value's bytes to the payload built so far and leaves the rest of the buffer alone |
| UsbcanFrame.CopyMsg | c/src/usbcan_proto.c:347-348 | memcpy into the payload area appends the bytes to the payload built so far |
| UsbcanFrame.BuildNmt | c/src/usbcan_proto.c:289-299 | usbcan_build_nmt returns 8 and leaves the frame of the payload COM_NMT, id, command |
| UsbcanFrame.BuildHb | c/src/usbcan_proto.c:304-314 | usbcan_build_hb returns 8 and leaves the frame of the payload COM_HB, id, state |
| UsbcanFrame.BuildTimestamp | c/src/usbcan_proto.c:319-328 | usbcan_build_timestamp returns 10 and leaves the frame of COM_TIMESTAMP followed by the 32-bit timestamp big-endian |
| UsbcanFrame.SdoTimeoutWordFields | c/src/usbcan_proto.c:344 | the SDO timing word packs the timeout's low 13 bits and the retry count's low 3 bits without overlap, so each reads back from it |
| UsbcanFrame.BuildSdoReq | c/src/usbcan_proto.c:333-352 | usbcan_build_sdo_req leaves the frame of type, id, index, sub-index, timing word and (for a write only) the len data bytes, and returns its size |
| UsbcanFrame.PutSdoReq | c/src/usbcan_proto.c:340-349 | the SDO request payload is written at offset 3, its length 7 plus len for a write |
| UsbcanFrame.PutSdoAddress | c/src/usbcan_proto.c:340-343 | the frame type, node id, big-endian index and sub-index come first in the SDO payload |
| UsbcanFrame.BuildComFrame | c/src/usbcan_proto.c:357-370 | usbcan_build_com_frame leaves the frame of COM_FRAME, a 4-byte identifier when bit 30 is set or a 2-byte one masked to 11 bits otherwise, and the dlc data bytes |
| UsbcanFrame.ParseComFrame | c/src/usbcan_proto.c:481-501 | (intended; see Findings) on a payload that holds its identifier and at most 8 data bytes, usbcan_parse_com_frame leaves a message of another type alone; otherwise bit 6 of the next byte selects the identifier width, the dlc is what remains of the payload and exactly that many data bytes are copied from its end |
| UsbcanFrame.IdLen | c/src/usbcan_proto.c:490-499 | the identifier is 4 bytes exactly when bit 6 of the byte after the type is set, else 2 |
| UsbcanFrame.ComFrameDlcAsWritten | c/src/usbcan_proto.c:490-499 | as written, the dlc is the payload length less the type and identifier bytes, narrowed into the uint8_t field |
| UsbcanFrame.ParseComFrameAsWritten | c/src/usbcan_proto.c:481-501 | as written, with no length check: the identifier, the wrapped dlc, and the copied bytes of which only the first 8 land in the message |
| UsbcanFrame.ParseAsWrittenAgrees | c/src/usbcan_proto.c:481-501 | on every payload the intended guard admits, the parse as written equals the intended parse |
| UsbcanFrame.ComFrameOverrunIffUnparseable | c/src/usbcan_proto.c:490-500 | up to 255 data bytes, the copy as written runs past the 8 data bytes exactly for the payloads the intended guard refuses |
| UsbcanFrame.ComFrameTwoBytesOverrun | c/src/usbcan_proto.c:490-500 | a 2-byte standard-identifier payload gets dlc 255 as written |
| UsbcanFrame.ParseBuiltComFrame | c/src/usbcan_proto.c:357-370 | parsing a built frame gives the message back: an extended identifier whole, a standard one as its low 11 bits, the dlc and its data bytes (round trip) |
| UsbcanFrame.ParseBuiltEid | c/src/usbcan_proto.c:481-501 | the round trip for an extended identifier |
| UsbcanFrame.ParseBuiltStd | c/src/usbcan_proto.c:481-501 | the round trip for a standard identifier, masked to 11 bits |
| UsbcanRx.Content | c/src/usbcan_proto.c:684 | the bytes buffered between tail and head number rb_dist(h, t), always fewer than the ring size |
| UsbcanRx.ScanFrom | c/src/usbcan_proto.c:672-721 | the frame loop's effect on the buffered bytes never consumes more than there are |
| UsbcanRx.ScanPayloadsFit | c/src/usbcan_proto.c:692-701 | every payload the loop delivers is shorter than USB_CAN_MAX_PAYLOAD, so it fits the stack buffer pload |
| UsbcanRx.ScanFromShift | c/src/usbcan_proto.c:672-721 | what the loop extracts depends only on the bytes from the tail on |
| UsbcanRx.ScanFrame | c/src/usbcan_proto.c:698-711 | a frame built by usbcan_wrap_inplace is delivered whole and consumed, whatever follows it |
| UsbcanRx.ScanFrames | c/src/usbcan_proto.c:672-721 | a stream of well-formed frames is taken apart into exactly its payloads, in order, and consumed entirely (round trip with the builders) |
| UsbcanRx.ScanSkipsGarbage | c/src/usbcan_proto.c:674-682 | bytes other than STX in front of the stream are skipped and the rest is scanned as before |
| UsbcanRx.ScanTooLong | c/src/usbcan_proto.c:692-696 | a length field of 4096 or more drops only the STX, and the pass then ends because fewer than 3 + elen + 2 bytes can be buffered |
| UsbcanRx.ScanShort | c/src/usbcan_proto.c:684-720 | with fewer than 3 bytes, or fewer than the whole frame, after the STX, the loop stops and consumes nothing more |
| UsbcanRx.ScanTake | c/src/usbcan_proto.c:698-711 | a complete frame whose CRC matches is delivered and the tail moves past all 5 + elen bytes |
| UsbcanRx.ScanDrop | c/src/usbcan_proto.c:712-716 | a complete frame whose CRC does not match loses only its STX |
| UsbcanRx.Be16IsShiftOr | c/src/usbcan_proto.c:689-690 | the C expression hi << 8 \| lo on two bytes is the big-endian 16-bit value |
| UsbcanRx.ContentAppend | c/src/usbcan_proto.c:669-670 | appending l bytes at the head adds exactly them to the buffered content while the ring does not fill up |
| UsbcanRx.RxState.constructor | c/src/usbcan_proto.c:1332-1335 | usbcan_instance_init allocates both receive buffers and starts with an empty ring |
| UsbcanRx.RxState.Rx | c/src/usbcan_proto.c:661-723 | usbcan_rx delivers a UDP datagram whole; on a serial line it appends the read bytes to the ring, delivers exactly the payloads the scan of the buffered content finds, moves the tail past what that scan consumed, and returns l |
| UsbcanRx.RxState.Append | c/src/usbcan_proto.c:669-670 | the l received bytes are ring-copied in at the head and the head advances by l |
| UsbcanRx.RxState.SkipToStx | c/src/usbcan_proto.c:674-682 | the inner loop moves the tail to the next STX or to the head, keeping the scan relation |
| UsbcanRx.RxState.AtStx | c/src/usbcan_proto.c:684-720 | one pass of the frame loop at an STX cuts out a frame, drops a bad STX, or ends the loop having consumed what the scan consumes |
| UsbcanRx.RxState.CompleteFrame | c/src/usbcan_proto.c:698-718 | with a whole frame buffered, the payload is delivered when the CRC matches and the tail moves past the frame; otherwise only the STX is dropped |
| UsbcanRx.RxState.CopyPayload | c/src/usbcan_proto.c:705 | rb_to_rb from t + 3 copies exactly the frame's elen payload bytes into pload |
| UsbcanRx.RxState.Drain | c/src/usbcan_proto.c:672-721 | the frame loop delivers exactly the scan's payloads and moves the tail by what the scan consumed |
| UsbcanProto.DeltaMs | c/src/usbcan_proto.c:157 | the elapsed microseconds become milliseconds in a 32-bit unsigned variable |
| UsbcanProto.DeltaMsRoundsUp | c/src/usbcan_proto.c:157 | the conversion rounds up: the smallest whole number of milliseconds that covers the elapsed time |
| UsbcanProto.AgeEntry | c/src/usbcan_proto.c:163-179 | a present node's countdown drops by the elapsed time; one that reaches 0 becomes absent with no interval and the heartbeat-timeout state; an absent node is left alone |
| UsbcanProto.AgeEntryOk | c/src/usbcan_proto.c:163-179 | aging keeps a row within the table's invariant (countdown -1 or in 1..threshold, statistics bracketing or cleared) |
| UsbcanProto.AgeTable | c/src/usbcan_proto.c:163-179 | the aging loop keeps all 128 rows |
| UsbcanProto.AgeEventsExact | c/src/usbcan_proto.c:172-177 | the heartbeat-timeout state change is reported for node i exactly when its countdown runs out during this poll, and nothing else is reported |
| UsbcanProto.HeartbeatEntry | c/src/usbcan_proto.c:594-618 | a heartbeat records the time since the last one as the interval, folds it into the minimum (restarting a cleared one) and maximum, restarts the countdown at the threshold, stores the state and raises the boot-up flag on an initializing state |
| UsbcanProto.HeartbeatAfterAbsence | c/src/usbcan_proto.c:602-611 | the first heartbeat after an absence is always reported as a state change and records threshold + 1 as its interval |
| UsbcanProto.HeartbeatEntryOk | c/src/usbcan_proto.c:594-618 | a heartbeat keeps a row within the table's invariant |
| UsbcanProto.TimerStaysInPeriod | c/src/usbcan_proto.c:159-203 | the master-heartbeat and sync timers fire exactly when the accumulated time reaches the interval and then stay within one interval; the master heartbeat, whose timer starts full, fires on the first poll |
| UsbcanProto.SdoDone | c/src/usbcan_proto.c:130-141 | sdo_resp_cb records the abort code and reply length and, for a read only, copies the reply into the operation's buffer, changing nothing else |
| UsbcanProto.SdoTtlAsWrittenMissesExpiry | c/src/usbcan_proto.c:206-214 | as written, a poll that overshoots the remaining time leaves a negative time to live rather than 0 |
| UsbcanProto.SdoTtlAsWrittenExample | c/src/usbcan_proto.c:206-214 | as written, ttl 5 polled after 10 ms becomes -5 and then -15 |
| UsbcanProto.SdoTtlAsWrittenParity | c/src/usbcan_proto.c:208 | as written, the update only adds multiples of 2^32 to ttl - delta_ms, so its parity is kept |
| UsbcanProto.SdoPollsAsWrittenNeverExpire | c/src/usbcan_proto.c:206-214 | as written, an odd time to live polled at an even period never reaches 0, so the transfer never ends |
| UsbcanProto.SdoTtl | c/src/usbcan_proto.c:208 | the intended clipped update: 0 once the elapsed time covers the time to live, otherwise the difference |
| UsbcanProto.SdoPollOp | c/src/usbcan_proto.c:206-214 | (intended, with the clipped SdoTtl; see Findings) a pending SDO loses the elapsed time and, once nothing is left, ends with the local timeout abort code and no reply data; any other operation is untouched |
| UsbcanProto.SdoPollsExpire | c/src/usbcan_proto.c:206-214 | with the intended update, an unanswered transfer ends with the local timeout once the polls have covered its time to live |
| UsbcanProto.SdoPollsIdle | c/src/usbcan_proto.c:206 | polls leave a finished transfer alone |
| UsbcanProto.WaitStatePollOp | c/src/usbcan_proto.c:217-240 | a wait for a state fails when its time was used up, otherwise succeeds when the node is present in the wanted state (any state for CO_NMT_ANY), and its time to live drops in 32-bit signed arithmetic |
| UsbcanProto.BootUpPollOp | c/src/usbcan_proto.c:243-265 | a wait for boot-up fails when its time was used up, otherwise succeeds when the node's boot-up flag is raised; the time to live drops as above |
| UsbcanProto.BootUpPollTable | c/src/usbcan_proto.c:249-253 | a successful wait for boot-up consumes the node's flag and changes no other row |
| UsbcanProto.SdoResponseOp | c/src/usbcan_proto.c:531-582 | an SDO response while a transfer is pending always ends it, but only one matching node, index, sub-index and direction delivers its abort code and data; with nothing pending it is ignored |
| UsbcanProto.SdoReadDataLenAsWrittenNegative | c/src/usbcan_proto.c:560-579 | as written, a 5-byte read response hands sdo_resp_cb a length of -4 |
| UsbcanProto.SdoReadDataLen | c/src/usbcan_proto.c:579 | the intended reply length: the bytes after the 9-byte header, none for a short response |
| UsbcanProto.ComFrameEventsAsWritten | c/src/usbcan_proto.c:510-518 | as written, every COM_FRAME payload reaches usbcan_com_frame_cb, with the message ParseComFrameAsWritten gives |
| UsbcanProto.ComFrameAsWrittenOverruns | c/src/usbcan_proto.c:481-518 | as written the callback gets a dlc above 8 exactly for the payloads the intended branch drops, and the same message otherwise |
| UsbcanProto.HbId | c/src/usbcan_proto.c:594 | the heartbeat's node id is masked to 7 bits, so it always indexes the 128-entry tables |
| UsbcanProto.WaitArgs | c/src/usbcan_proto.c:1503-1520 | the intended argument checks: an id outside 1..127 is refused, a timeout of 0 or less succeeds at once, anything else starts a wait |
| UsbcanProto.WaitArgsAsWrittenAdmitsPastTable | c/src/usbcan_proto.c:1510-1529 | the written checks agree with the intended ones except that an id of 128 or more starts a wait and indexes past the tables |
| UsbcanProto.Device.constructor | c/src/usbcan_proto.c:1439-1449 | a new device handle has the given id, timeout 1000 ms and one retry |
| UsbcanProto.Remove | c/src/usbcan_proto.c:1458-1489 | unlinking a device from the list never lengthens it |
| UsbcanProto.RemoveMembers | c/src/usbcan_proto.c:1458-1489 | unlinking dev takes out exactly dev and keeps every other device |
| UsbcanProto.RemoveAt | c/src/usbcan_proto.c:1471-1484 | unlinking the node at position i of a list without repeats removes only that position, the rest in order |
| UsbcanProto.PushThenRemove | c/src/usbcan_proto.c:1432-1489 | usbcan_device_init followed by usbcan_device_deinit gives the device list back |
| UsbcanProto.Monitor.constructor | c/src/usbcan_proto.c:1304-1330 | usbcan_instance_init zeroes the instance, sets the default heartbeat and sync intervals with the master heartbeat timer full, and marks every node absent with cleared statistics and the heartbeat-timeout state |
| UsbcanProto.Monitor.HbInterval | c/src/usbcan_proto.c:1241-1248 | usbcan_get_hb_interval returns the node's last interval, -1 for an id outside the table, and never more than threshold + 1 |
| UsbcanProto.Monitor.MinHbInterval | c/src/usbcan_proto.c:1250-1257 | usbcan_get_min_hb_interval returns the node's minimum, -1 outside the table |
| UsbcanProto.Monitor.MaxHbInterval | c/src/usbcan_proto.c:1259-1266 | usbcan_get_max_hb_interval returns the node's maximum, -1 outside the table; it is cleared exactly when the minimum is and never below it |
| UsbcanProto.Monitor.DeviceState | c/src/usbcan_proto.c:1279-1286 | usbcan_get_device_state returns the node's last state, the heartbeat-timeout state outside the table |
| UsbcanProto.Monitor.StatsBracketInterval | c/src/usbcan_proto.c:611-617 | while a node is present and its statistics are not cleared, minimum <= last interval <= maximum |
| UsbcanProto.Monitor.ClearHbStat | c/src/usbcan_proto.c:1268-1277 | usbcan_clear_hb_stat clears exactly that node's minimum and maximum and returns true, or returns false and changes nothing for an id outside the table |
| UsbcanProto.Monitor.AgeDevices | c/src/usbcan_proto.c:163-179 | the aging loop leaves the table AgeTable of the old one and reports exactly AgeEvents |
| UsbcanProto.Monitor.RunTimers | c/src/usbcan_proto.c:159-203 | each timer advances by the elapsed time and loses one interval when it fires; a heartbeat is sent unless inhibited and a sync frame only when enabled |
| UsbcanProto.Monitor.PollSdo | c/src/usbcan_proto.c:206-214 | (intended, with the clipped SdoTtl; see Findings) the pending-SDO branch leaves SdoPollOp of the old operation and wakes the waiting thread exactly when it ends the transfer |
| UsbcanProto.Monitor.PollWaitState | c/src/usbcan_proto.c:217-240 | the wait-for-state branch leaves WaitStatePollOp of the old operation |
| UsbcanProto.Monitor.PollBootUp | c/src/usbcan_proto.c:243-265 | the wait-for-boot-up branch leaves BootUpPollOp and BootUpPollTable of the old state |
| UsbcanProto.Monitor.PollOperation | c/src/usbcan_proto.c:206-265 | at most one of the three operation branches applies, selected by the pending operation's code |
| UsbcanProto.Monitor.Poll | c/src/usbcan_proto.c:154-266 | usbcan_poll ages the table by the elapsed time rounded up to milliseconds, runs both timers and then advances the pending operation against the aged table (the SDO branch as intended, through PollSdo) |
| UsbcanProto.Monitor.ReceiveHeartbeat | c/src/usbcan_proto.c:588-624 | a heartbeat changes only its node's row, to HeartbeatEntry, and reports a state change when the state differs or the node was absent |
| UsbcanProto.Monitor.ReceiveSdoResponse | c/src/usbcan_proto.c:531-582 | an SDO response leaves SdoResponseOp of the pending operation and wakes the waiting thread only for a matching response |
| UsbcanProto.Monitor.ReceiveFrame | c/src/usbcan_proto.c:506-654 | usbcan_frame_receive_cb dispatches on the type byte: a CAN frame is parsed and reported through the intended guard (ComFrameEvents; see Findings), SDO responses and heartbeats update the operation or the table as above with the intended read length SdoReadDataLen, an emergency is reported with its fields, every other type is ignored |
| UsbcanProto.Monitor.StartWaitDeviceState | c/src/usbcan_proto.c:1503-1527 | wait_device_state, with the intended id check, sets up the wait with a failing abort code and marks the node absent so that only a fresh heartbeat satisfies it |
| UsbcanProto.Monitor.StartWaitBootUp | c/src/usbcan_proto.c:1545-1567 | wait_device_boot_up, with the intended id check, sets up the wait with a failing abort code |
| UsbcanProto.Monitor.WaitResult | c/src/usbcan_proto.c:1537 | a finished wait returns 1 exactly when it ended without an abort code |
| UsbcanProto.Monitor.ClearBootUpFlag | c/src/usbcan_proto.c:1540-1543 | clear_device_boot_up_flag lowers exactly that node's flag |
| UsbcanProto.Monitor.StartSdo | c/src/usbcan_proto.c:1616-1637 | write_raw_sdo and read_raw_sdo set up the pending SDO with the device's timeout and retry count standing in for zero arguments and a time to live of twice the timeout, and send the request with the arguments as given |
| UsbcanProto.Monitor.ReadSdoResult | c/src/usbcan_proto.c:1685-1696 | read_raw_sdo returns the abort code; on success it copies the reply into the caller's buffer and reports its length, truncated to the buffer when it does not fit; on failure nothing is copied |
| UsbcanProto.Monitor.DeviceInit | c/src/usbcan_proto.c:1432-1456 | usbcan_device_init pushes a new handle with the defaults at the head of the device list |
| UsbcanProto.Monitor.DeviceDeinit | c/src/usbcan_proto.c:1458-1489 | usbcan_device_deinit unlinks exactly that device from the list and returns 1 |
| UsbcanLegacy.LegacyTimesOutIff | src/usbcan_proto.c:143-150 | with 64-bit countdowns and deltas, a node times out exactly when its countdown is 0 or the delta covers it; a negative delta never ends one |
| UsbcanLegacy.LegacyAgeEntry | src/usbcan_proto.c:142-157 | a present node's countdown drops by min(delta, countdown) in 64-bit arithmetic; one that reaches 0 becomes absent with no interval but keeps its last state |
| UsbcanLegacy.LegacyAgeEntryCounts | src/usbcan_proto.c:144-147 | a node that does not run out loses exactly the elapsed time |
| UsbcanLegacy.LegacyAgeEntryOk | src/usbcan_proto.c:142-157 | for a non-negative delta, aging keeps a row within the table's invariant |
| UsbcanLegacy.LegacyAgeBackwards | src/usbcan_proto.c:144-147 | for every present node and negative delta (clock stepping back), the countdown grows by the delta's size instead of shrinking |
| UsbcanLegacy.LegacyAgeTable | src/usbcan_proto.c:142-157 | the aging loop keeps all 128 rows |
| UsbcanLegacy.LegacyAgeEventsExact | src/usbcan_proto.c:148-156 | the heartbeat-timeout state is reported for node i exactly when its countdown runs out |
| UsbcanLegacy.LegacyHeartbeatEntry | src/usbcan_proto.c:446-459 | a heartbeat takes over the state, records the time the countdown had run as the interval (threshold + 1 after an absence) and restarts the countdown |
| UsbcanLegacy.LegacyHeartbeatEntryOk | src/usbcan_proto.c:446-459 | a heartbeat keeps a row within the table's invariant |
| UsbcanLegacy.GetterAdmitsAsWrittenOnePast | src/usbcan_proto.c:113-129 | the getters' INRANGE(id, 0, USB_CAN_MAX_DEV) admits exactly one id more than the tables hold, 128 |
| UsbcanLegacy.LegacyComFrameEventsAsWritten | src/usbcan_proto.c:332-370 | as written, every COM_FRAME payload reaches the callback, with the message ParseComFrameAsWritten gives |
| UsbcanLegacy.LegacyComFrameAsWrittenOverruns | src/usbcan_proto.c:332-370 | as written the callback gets a dlc above 8 exactly for the payloads the intended branch drops, and the same message otherwise |
| UsbcanLegacy.LegacyReadLenAsWrittenNegative | src/usbcan_proto.c:421-430 | as written, a read response shorter than its 9-byte header hands the waiter a negative length, where the intended length is 0 |
| UsbcanLegacy.WaiterPoll | src/usbcan_proto.c:170-179 | a registered waiter loses the elapsed time, clipped at 0; at 0 its callback is called once with abort code -1 and no data and the waiter is dropped |
| UsbcanLegacy.WaiterCalledOnce | src/usbcan_proto.c:170-179 | an unanswered waiter is called exactly once, with the local timeout, once the polls have covered its time to live |
| UsbcanLegacy.WaiterPollsIdle | src/usbcan_proto.c:170 | polls without a waiter report nothing |
| UsbcanLegacy.WaiterResponse | src/usbcan_proto.c:383-435 | an SDO response reaches the waiter, which is then dropped, only when its node, index, sub-index and direction match; otherwise the waiter stays registered |
| UsbcanLegacy.LegacyMonitor.constructor | src/usbcan_proto.c:725-730 | usbcan_instance_init zeroes the instance, sets the master heartbeat interval and alive threshold and runs usbcan_init |
| UsbcanLegacy.LegacyMonitor.Init | src/usbcan_proto.c:75-85 | usbcan_init marks every node absent with no interval and the heartbeat-timeout state |
| UsbcanLegacy.LegacyMonitor.HbInterval | src/usbcan_proto.c:113-120 | usbcan_get_hb_interval, with the intended range check, returns the node's last interval and 0 outside the table |
| UsbcanLegacy.LegacyMonitor.DeviceState | src/usbcan_proto.c:122-129 | usbcan_get_device_state, with the intended range check, returns the node's last state and the heartbeat-timeout state outside the table |
| UsbcanLegacy.LegacyMonitor.AgeDevices | src/usbcan_proto.c:142-157 | the aging loop leaves LegacyAgeTable of the old table and reports LegacyAgeEvents |
| UsbcanLegacy.LegacyMonitor.Poll | src/usbcan_proto.c:136-180 | usbcan_poll ages the table, runs the master heartbeat timer (sending unless inhibited) and advances the waiter, in that order |
| UsbcanLegacy.LegacyMonitor.SendSdoReq | src/usbcan_proto.c:305-312 | usbcan_send_sdo_req registers the waiter before the request leaves, and the request is the SDO request payload of the given fields |
| UsbcanLegacy.LegacyMonitor.ReceiveHeartbeat | src/usbcan_proto.c:440-466 | a heartbeat changes only its node's row and reports a state change when the state differs or the node was absent |
| UsbcanLegacy.LegacyMonitor.ReceiveSdoResponse | src/usbcan_proto.c:383-435 | an SDO response leaves WaiterResponse of the old waiter |
| UsbcanLegacy.LegacyMonitor.ReceiveFrame | src/usbcan_proto.c:356-494 | usbcan_frame_receive_cb dispatches on the type byte: the CAN frame through the intended guard (LegacyComFrameEvents; see Findings), SDO responses with the intended read length SdoReadDataLen, heartbeat and emergency as above, every other type ignored |
| ServoApi.StatusOfAbort | c/src/api.c:98-109 | ret_sdo maps no abort to RET_OK and the SDO timeout abort to RET_TIMEOUT, each exactly, and every other code, the local timeout 0xFFFFFFFF included, to RET_ERROR |
| ServoApi.SwitchDescExact | c/src/api.c:266-285 | a switch over distinct labels returns the string of the matching label and "N/A" for any other value |
| ServoApi.EmcyBitNamesIncrease | c/src/api.c:294-425 | the labels of rr_describe_emcy_bit are distinct (listed by increasing value), with the gaps 0x09-0x11, 0x16-0x17, 0x1B and 0x1D-0x1F |
| ServoApi.EmcyCodeNamesIncrease | c/src/api.c:435-569 | the 63 labels of rr_describe_emcy_code are distinct (listed by increasing value) |
| ServoApi.DescribeNmtExact | c/src/api.c:266-285 | rr_describe_nmt gives each of the six heartbeat states its description and "N/A" exactly for every other value |
| ServoApi.DescribeEmcyBitExact | c/src/api.c:294-425 | rr_describe_emcy_bit gives each listed bit its description and "N/A" for the unused bits and those above 0x45 |
| ServoApi.DescribeEmcyCodeExact | c/src/api.c:435-569 | rr_describe_emcy_code gives each listed 16-bit code its description and "N/A" for any other |
| ServoApi.ErrorBitsExact | c/src/api.c:1243-1254 | the bitfield expansion lists exactly the set bits among the first n, each once, in ascending order |
| ServoApi.ErrorBitsGrow | c/src/api.c:1243-1254 | scanning further never shortens the list |
| ServoApi.ReadErrorStatus | c/src/api.c:1228-1258 | rr_read_error_status, with the bitfield in its own buffer, reads 0x2000 sub 0; on success the count is the number of set bits and the caller's array receives their indices in ascending order and nothing else; after a failure the count is 0 and the array untouched; the status is ret_sdo of the abort code |
| ServoApi.ListErrorBits | c/src/api.c:1243-1254 | the scan loop counts the set bits and writes their indices to the front of the array when there is one |
| ServoApi.InPlaceScan | c/src/api.c:1243-1254 | as written, the scan of a bitfield received into error_array itself keeps the buffer size and never counts more bits than it scans |
| ServoApi.ReadErrorStatusAsWritten | c/src/api.c:1228-1258 | as written, with error_array given the reply lands in error_array and the scan reads the same array it writes the indices into |
| ServoApi.CopyReply | c/src/api.c:1238-1240 | read_raw_sdo copies the reply into the front of the destination and leaves the rest |
| ServoApi.InPlaceScanLosesBits | c/src/api.c:1236-1254 | as written, the one-byte bitfield 0x03 (two errors) is reported as one error, because writing index 0 clears bit 1 before it is tested |
| ServoApi.ScanClearedTail | c/src/api.c:1243-1254 | once the written indices have cleared the bitfield, the rest of the scan finds nothing |
| ServoApi.ErrorBitsOfThree | c/src/api.c:1243-1254 | the bitfield 0x03 has errors 0 and 1 |
| ServoApi.SetBit | c/src/api.c:77 | BIT_SET_UINT_ARRAY keeps the array's size |
| ServoApi.SetBitEffect | c/src/api.c:77 | BIT_SET_UINT_ARRAY sets bit i and changes no other bit |
| ServoApi.MaskOf | c/src/api.c:1326-1336 | the mask of rr_param_cache_setup_entry is 10 bytes |
| ServoApi.MaskOfBits | c/src/api.c:1326-1336 | bit i of the mask is set iff entry i is activated |
| ServoApi.ActiveBefore | c/src/api.c:1284-1291 | the offset reached after i entries counts at most i activated entries |
| ServoApi.Servo.constructor | c/src/api.c:655 | rr_init_servo's calloc leaves every cache entry inactive with a zero value |
| ServoApi.Servo.SetupEntry | c/src/api.c:1319-1340 | rr_param_cache_setup_entry stores the flag before and regardless of the SDO write to 0x2015 sub 1, whose 10-byte mask has bit i set iff entry i is activated; the status is ret_sdo of the abort code |
| ServoApi.Servo.BuildMask | c/src/api.c:1326-1336 | the mask loop builds MaskOf the whole cache |
| ServoApi.Servo.ParamCacheUpdate | c/src/api.c:1269-1296 | rr_param_cache_update reads 0x2014 sub 1; on success the k-th activated entry takes the 4 bytes at offset 4k and inactive entries are untouched, and RET_SIZE_MISMATCH is returned, after the overwrite, iff 4 times the active count differs from the reply length; on failure the cache is untouched |
| ServoApi.Servo.ReadParameter | c/src/api.c:1353-1371 | rr_read_parameter reads 0x2013 sub param; a successful 4-byte read stores the value in the cache, activated or not, and returns it; a successful read of another length returns RET_OK with *value and the cache untouched; a failure returns its status |
| ServoApi.Servo.ReadCachedParameter | c/src/api.c:1385-1390 | rr_read_cached_parameter always returns RET_OK with the stored 4-byte value |
| ServoApi.MotionPointCall | c/src/api.c:1128-1147 | rr_add_motion_point sends 12 bytes, position, velocity and the little-endian time, to 0x2200 sub 2 |
| ServoApi.MotionPointPvatCall | c/src/api.c:1165-1190 | rr_add_motion_point_pvat sends 16 bytes, position, velocity, acceleration and the time, to 0x2200 sub 3 |
| ServoApi.MotionStatusCases | c/src/api.c:1139-1146 | the motion-point status is RET_WRONG_TRAJ exactly for CO_SDO_AB_PRAM_INCOMPAT and otherwise ret_sdo's |
| ServoApi.ClearPointsCall | c/src/api.c:1399-1420 | rr_clear_points sends the count as a little-endian 32-bit value to 0x2202 sub 1; rr_clear_points_all sends 0 |
| ServoApi.TimeCalcPayload | c/src/api.c:1505-1516 | the 32-byte request of rr_invoke_time_calculation holds the start point and time, then the end point and time |
| ServoApi.TimeCalcAsWrittenHidesReadFailure | c/src/api.c:1518-1544 | as written, a result read that times out returns RET_OK and leaves *time_ms as it was, because the inner sts shadows the outer one |
| ServoApi.InvokeTimeCalculation | c/src/api.c:1518-1544 | with the read's own status tested: RET_WRONG_ARG exactly for a missing result pointer after a good write, RET_WRONG_TRAJ exactly for CO_SDO_AB_GENERAL, RET_OK exactly when both requests succeed, and *time_ms changes only then |
| ServoApi.ChangeIdGuardAsWrittenCrashes | c/src/api.c:1650-1656 | as written, a null descriptor with a valid new id is dereferenced before IS_VALID_SERVO, whose RET_BAD_INSTANCE can never be returned |
| ServoApi.ChangeIdGuard | c/src/api.c:1650-1656 | the intended guard: ids outside 1..127 give RET_WRONG_ARG, a null descriptor RET_BAD_INSTANCE, an unchanged id RET_OK, each exactly, and it never crashes |
| ServoApi.ChangeIdOutcome | c/src/api.c:1648-1680 | (intended null check, ChangeIdGuard; see Findings) rr_change_id returns RET_OK iff nothing had to change or the write of 0x2100, the network reset, rr_deinit_servo and rr_init_servo all succeeded, in that order, and the descriptor was replaced; it stops at the first failure |
| ServoApi.SaveCallBytes | c/src/api.c:1697-1701 | the "save" password 0x73617665 goes out little-endian |
| ServoApi.ChangeIdAndSaveOutcome | c/src/api.c:1692-1707 | (intended null check, ChangeIdGuard; see Findings) rr_change_id_and_save writes the save password to 0x1010 sub 1 of the device the descriptor now names, only after rr_change_id returned RET_OK, and returns RET_OK iff both succeeded |
| ServoApi.ChangeId | c/src/api.c:1648-1680 | (intended null check, ChangeIdGuard; see Findings) rr_change_id runs the steps of ChangeIdOutcome and leaves *servo kept, cleared or replaced by a fresh descriptor for the new id with an empty cache |
| ServoApi.ChangeIdAndSave | c/src/api.c:1692-1707 | (intended null check, ChangeIdGuard; see Findings) rr_change_id_and_save runs ChangeId and then the save request, as ChangeIdAndSaveOutcome states |
| FwUpdate.DataLen | c/tools/fw-update-tool/fw-update.c:405 | data_len is the file length rounded up to the next multiple of 4 |
| FwUpdate.RawImage | c/tools/fw-update-tool/fw-update.c:411-414 | the calloc'ed buffer holds fw_len = data_len + 4 bytes |
| FwUpdate.FinalImage | c/tools/fw-update-tool/fw-update.c:411-457 | the downloaded image is fw_len bytes long |
| FwUpdate.FinalImageLayout | c/tools/fw-update-tool/fw-update.c:405-457 | the image keeps the file's bytes outside [4, 8), is zero-padded up to data_len, carries data_len little-endian at [4, 8) and ends with the CRC-32 of [4, data_len) |
| FwUpdate.ImageContent | c/tools/fw-update-tool/fw-update.c:412-414 | fread over the calloc'ed buffer: the file's bytes, then zero padding |
| FwUpdate.ImageLengthField | c/tools/fw-update-tool/fw-update.c:455 | fw[4..8) holds data_len as a little-endian 32-bit value |
| FwUpdate.ImageCrcField | c/tools/fw-update-tool/fw-update.c:456-457 | the last 4 bytes hold the CRC-32 of fw[4..data_len) little-endian |
| FwUpdate.TypeByteAsWritten | c/tools/fw-update-tool/fw-update.c:438 | as written, fw[8] is read whatever the buffer's length, past its end when fw_len is 8 |
| FwUpdate.TypeByteAsWrittenPastEnd | c/tools/fw-update-tool/fw-update.c:405-438 | files of 1 to 4 bytes give fw_len 8, and exactly those make the read of fw[8] go past the buffer |
| FwUpdate.TypeByteAsWrittenOneByteFile | c/tools/fw-update-tool/fw-update.c:405-438 | a one-byte file gives an 8-byte buffer whose fw[8] lies past the end |
| FwUpdate.StartOutcome | c/tools/fw-update-tool/fw-update.c:383-449 | (intended; see Findings) the download starts iff the file is non-empty, the device reported its type, the image is longer than 8 bytes and its type byte matches or identity is ignored; a mismatch is DL_WRONG_IDENT, everything else DL_ERROR |
| FwUpdate.Be24 | c/tools/fw-update-tool/fw-update.c:289-291 | the offset goes out as three bytes |
| FwUpdate.Be24Value | c/tools/fw-update-tool/fw-update.c:289-291 | the three offset bytes read most significant first give the offset modulo 2^24 |
| FwUpdate.BlockFrameFields | c/tools/fw-update-tool/fw-update.c:280-299 | a block frame goes to CO_CAN_ID_DEV_WRITE with dlc 8 and carries the device id, the offset modulo 2^24 big-endian and the image bytes at that offset |
| FwUpdate.OnFrame | c/tools/fw-update-tool/fw-update.c:113-234 | one callback never raises alive, sends at most one frame and keeps what was sent before, and changes the result only to DL_SUCCESS or DL_ERROR |
| FwUpdate.FailedAckAborts | c/tools/fw-update-tool/fw-update.c:124-233 | an erase, write or flash acknowledgement reporting failure ends the download with DL_ERROR and sends nothing |
| FwUpdate.Feed | c/tools/fw-update-tool/fw-update.c:113-234 | callbacks on a run of frames keep the same guarantees as one |
| FwUpdate.FeedAppend | c/tools/fw-update-tool/fw-update.c:113-234 | callbacks on two runs of frames are the callbacks on the first run, then on the second |
| FwUpdate.OnEraseOk | c/tools/fw-update-tool/fw-update.c:124-142 | an erase acknowledgement with status 0, from any device id, resets ptr and sends the first 4-byte block |
| FwUpdate.OnWriteOk | c/tools/fw-update-tool/fw-update.c:169-202 | a good write acknowledgement before the end of the image sends the next 4-byte block and moves ptr by 4 |
| FwUpdate.OnLastWriteOk | c/tools/fw-update-tool/fw-update.c:180-195 | a good write acknowledgement once ptr has reached fw_len requests FLASH_APP and nothing else |
| FwUpdate.OnFlashOk | c/tools/fw-update-tool/fw-update.c:205-227 | a flash acknowledgement with CO_BOOT_STATUS_OK sends EXEC and sets DL_SUCCESS |
| FwUpdate.AcksSendBlocks | c/tools/fw-update-tool/fw-update.c:169-202 | k good write acknowledgements send the next k blocks in order and move ptr by 4k |
| FwUpdate.AcksThenFlash | c/tools/fw-update-tool/fw-update.c:169-202 | after the last block, one more acknowledgement requests the flash |
| FwUpdate.EraseThenAcks | c/tools/fw-update-tool/fw-update.c:124-202 | the erase acknowledgement and one write acknowledgement per block bring the tool to the flash request having sent every block |
| FwUpdate.AcknowledgedDownload | c/tools/fw-update-tool/fw-update.c:113-234 | a download the bootloader acknowledges throughout sends every block of the image in order, then FLASH_APP and EXEC, and ends with DL_SUCCESS |
| FwUpdate.BlocksCarryImage | c/tools/fw-update-tool/fw-update.c:280-299 | the blocks from an offset carry the image bytes back to back |
| FwUpdate.BlocksCarryOffsets | c/tools/fw-update-tool/fw-update.c:289-296 | block i carries the offset off + 4i modulo 2^24 |
| FwUpdate.Waited | c/tools/fw-update-tool/fw-update.c:464-474 | the wait loop ends with a result other than DL_DOWNLOADING, the callbacks' result or DL_SUCCESS / DL_ERROR |
| FwUpdate.WaitedRound | c/tools/fw-update-tool/fw-update.c:464-468 | while downloading below the timeout, the wait is one round (the frames of one sleep, then 100 ms more on alive) followed by the wait on the later sleeps |
| FwUpdate.SilentDownloadTimesOut | c/tools/fw-update-tool/fw-update.c:464-474 | 15 s without any frame from the bootloader turns DL_DOWNLOADING into DL_ERROR |
| FwUpdate.SuccessEndsWait | c/tools/fw-update-tool/fw-update.c:464-474 | a flash acknowledgement during the wait ends it with DL_SUCCESS |
| FwUpdate.Downloader.constructor | c/tools/fw-update-tool/fw-update.c:366-371 | the tool starts with no image, DL_IDLE and the device type unknown |
| FwUpdate.Downloader.WriteBlock | c/tools/fw-update-tool/fw-update.c:280-299 | write_block sends the block frame for *off and advances *off by exactly len |
| FwUpdate.Downloader.Erase | c/tools/fw-update-tool/fw-update.c:236-255 | erase sends the ERASE_APP frame with the image type and the 24-bit image length |
| FwUpdate.Downloader.DownloadStart | c/tools/fw-update-tool/fw-update.c:257-278 | download_start sets DL_DOWNLOADING and sends HALT, then the erase request |
| FwUpdate.Downloader.EraseAcked | c/tools/fw-update-tool/fw-update.c:124-142 | the erase acknowledgement branch as OnEraseOk / FailedAckAborts state it |
| FwUpdate.Downloader.WriteAcked | c/tools/fw-update-tool/fw-update.c:169-202 | the write acknowledgement branch: DL_ERROR, the flash request or the next block |
| FwUpdate.Downloader.ComFrame | c/tools/fw-update-tool/fw-update.c:113-234 | _com_frame_cb leaves the state OnFrame of the old one |
| FwUpdate.Downloader.Deliver | c/tools/fw-update-tool/fw-update.c:113-234 | the callback on each frame of a sleep leaves Feed of the old state |
| FwUpdate.Downloader.WaitRound | c/tools/fw-update-tool/fw-update.c:464-468 | one round of the wait loop delivers the frames of one sleep to the callback and adds 100 ms to alive, leaving the image untouched |
| FwUpdate.Downloader.Await | c/tools/fw-update-tool/fw-update.c:464-474 | the wait loop and its timeout test leave Waited of the old state |
| FwUpdate.Downloader.LoadFile | c/tools/fw-update-tool/fw-update.c:411-414 | the buffer holds the file over zeros and is fw_len long |
| FwUpdate.Downloader.PutLe32 | c/tools/fw-update-tool/fw-update.c:455-457 | a 32-bit memcpy writes exactly 4 little-endian bytes at the offset |
| FwUpdate.Downloader.Seal | c/tools/fw-update-tool/fw-update.c:455-457 | the length field, then the CRC over [4, data_len), are written into the buffer |
| FwUpdate.Downloader.Prepare | c/tools/fw-update-tool/fw-update.c:371-449 | (intended, through StartOutcome; see Findings) update() up to the identity check goes on exactly when StartOutcome says so, and otherwise records its result and sends nothing |
| FwUpdate.Downloader.Update | c/tools/fw-update-tool/fw-update.c:366-490 | (intended, through StartOutcome; see Findings) update() returns StartOutcome when the download does not start; otherwise the downloaded image is FinalImage and the result is what the wait leaves |
| FwUpdate.Downloader.Download | c/tools/fw-update-tool/fw-update.c:455-474 | from the length field on, update() seals the image, starts the download and ends with DL_SUCCESS or DL_ERROR |
| PyConstants.Bind | python/rozum/constants.py:3-14 | a tuple-target assignment (or a dict built from pairs) binds exactly the listed names, each to the value at the last position that names it |
| PyConstants.CEnum | c/include/api.h:47-60 | a C enumeration numbered from its first enumerator defines exactly the listed names |
| PyConstants.CEnumAt | c/include/api.h:47-60 | the enumerator at position i is numbered first + i |
| PyConstants.NumberingAgrees | python/rozum/constants.py:3-14 | numbering names through Python's tuple unpacking of consecutive c_ints gives every name the value the C enumeration gives it, for any list of names |
| PyConstants.BindLast | python/rozum/constants.py:32-92 | the last name of a tuple target is bound to the last value |
| PyConstants.UnpackRange | python/rozum/constants.py:32-92 | unpacking range(n) into n distinct names binds the i-th name to i, the C enumeration's number for it |
| PyConstants.RetStatusCodes | python/rozum/constants.py:3-14 | RET_OK..RET_WRONG_ARG unpack without error to 0..10, the numbers rr_ret_status_t gives them |
| PyConstants.CRetCodesNumbered | c/include/api.h:47-60 | the status codes the C model returns are numbered 0..10 as in rr_ret_status_t |
| PyConstants.StatusMessageTable | python/rozum/constants.py:16-30 | RET_STATUS_MESSAGE has exactly the keys 0..10 and maps each to its message |
| PyConstants.ServoParamCodes | python/rozum/constants.py:32-92 | SERVO_PARAM_T unpacks without error into 59 names numbered 0..58, and APP_PARAM_SIZE is 58, the C library's parameter count |
| PyRuntime.PointerValue | python/rdrive/servo/api.py:855-858 | a c_void_p's value is None exactly for NULL and the address otherwise |
| PyRuntime.WrapVoidP | python/rdrive/servo/api.py:855-858 | c_void_p(x) is never the None object, whatever x is |
| PyRuntime.NullPassesGuardAsWritten | python/rdrive/servo/api.py:858-863 | the `is None` guard lets a wrapped NULL through although its value is None |
| PyRuntime.IsNull | python/rdrive/servo/api.py:901-906 | the intended guard holds exactly for a NULL pointer |
| PyRuntime.CUint8 | python/rdrive/servo/api.py:930 | c_uint8 keeps the value modulo 256, in 0..255 |
| PyRuntime.CByte | python/rdrive/servo/api.py:902 | c_byte keeps the value modulo 256, in -128..127 |
| PyRuntime.SignedByteArrivesUnsigned | python/rdrive/servo/api.py:902 | a c_byte identifier reaches rr_init_servo's uint8_t parameter as the same byte as a c_uint8; identifiers 0..255 arrive unchanged |
| PyRuntime.CUint32 | python/rdrive/servo/api.py:354-366 | c_uint32 keeps the value modulo 2^32 |
| PyRuntime.Library.Invoke | python/rdrive/servo/api.py:1081 | a native call is appended to the library's call log and nothing else changes |
| RdriveApi.Handle | python/rdrive/servo/api.py:84-90 | no error exactly for RET_OK; a ServoError carrying the code and its message for codes 1..10; a KeyError for any code outside the message table |
| RdriveApi.MotionCall | python/rdrive/servo/api.py:354-366 | add_motion_point calls rr_add_motion_point_pvat exactly when an acceleration is given, and rr_add_motion_point otherwise, with time as c_uint32 |
| RdriveApi.Servo.constructor | python/rdrive/servo/api.py:112-116 | a Servo keeps the library, its handle and its identifier |
| RdriveApi.Servo.AddMotionPoint | python/rdrive/servo/api.py:354-366 | exactly one native motion call is made and its status goes through ServoError.handle |
| RdriveApi.Interface.constructor | python/rdrive/servo/api.py:853-864 | one rr_init_interface call; the handle is what it returned and the servo registry starts empty |
| RdriveApi.Interface.InitServo | python/rdrive/servo/api.py:901-908 | get-or-create: a known id returns the registered Servo with no native call; a new id makes one rr_init_servo call, is rejected on NULL by the intended guard IsNull (see Findings) and otherwise registered under its id; registry keys and library stay consistent |
| RdriveApi.Interface.ChangeIdAndSave | python/rdrive/servo/api.py:929-932 | looks the servo up (InitServo, with its intended NULL guard), passes its handle by reference to rr_change_id_and_save, keeps whatever handle the library left there, raises on a failed status with the old id still registered, and on success forgets the old id; other servos are untouched |
| RdriveApi.ServoApi.constructor | python/rdrive/servo/api.py:1066-1083 | a loaded API starts with no interfaces |
| RdriveApi.ServoApi.InitInterface | python/rdrive/servo/api.py:1122-1133 | get-or-create by name: a known name makes no native call; a new name opens the bus once and is registered unless the handle is NULL (the intended guard IsNull; see Findings) |
| RdriveApi.ServoApi.DeinitInterface | python/rdrive/servo/api.py:1143-1147 | an unknown name raises KeyError before any native call; otherwise rr_deinit_interface gets the handle by reference and the name is dropped only on RET_OK |
| RdriveApi.Singleton.constructor | python/rdrive/servo/api.py:103-104 | the instance table starts empty |
| RdriveApi.Singleton.Call | python/rdrive/servo/api.py:106-109 | the first call per class constructs and records the instance; every later call returns that same object and constructs nothing |
| RozumApi.Marshal | python/rozum/servo/api.py:133 | ctypes refuses exactly the library object and passes pointers unchanged |
| RozumApi.ChangeIdServoArg | python/rozum/servo/api.py:525-526 | the servo argument rr_change_id_and_save needs is a reference to the handle |
| RozumApi.ChangeIdServoArgMismatch | python/rozum/servo/api.py:525-526 | as written the handle is passed by value, which does not fit the `rr_servo_t **` parameter |
| RozumApi.Servo.constructor | python/rozum/servo/api.py:24-29 | a Servo keeps the library, its handle and its identifier |
| RozumApi.Servo.SetZeroPositionAsWritten | python/rozum/servo/api.py:123-133 | as written, the call raises ArgumentError and no native call is made |
| RozumApi.Servo.SetZeroPosition | python/rozum/servo/api.py:123-133 | with the servo's handle, one rr_set_zero_position call is made and its status returned |
| RozumApi.Interface.constructor | python/rozum/servo/api.py:461-468 | one rr_init_interface call; the handle is what it returned and the servo registry starts empty |
| RozumApi.Interface.InitServo | python/rozum/servo/api.py:499-506 | get-or-create by id: no native call for a known id; one rr_init_servo call for a new id, which is rejected on NULL (the intended guard IsNull; see Findings) and otherwise registered under its id |
| RozumApi.Interface.ChangeIdAndSave | python/rozum/servo/api.py:525-528 | looks the servo up, calls rr_change_id_and_save once with the intended by-reference argument ChangeIdServoArg (see Findings), forgets the old id whatever the status, and returns the status |
| RozumApi.ServoApi.constructor | python/rozum/servo/api.py:593-604 | construction sleeps 100 ms through the library and starts with no interfaces |
| RozumApi.ServoApi.InitInterface | python/rozum/servo/api.py:618-639 | get-or-create by name: no native call for a known name; a new name opens the bus once and is registered unless the handle is NULL (the intended guard IsNull; see Findings) |
| RozumApi.Singleton.constructor | python/rozum/servo/api.py:15-16 | the instance table starts empty |
| RozumApi.Singleton.Call | python/rozum/servo/api.py:18-21 | the first call per class constructs the instance, which sleeps 100 ms; later calls return the same object and touch nothing |
| RozumServo.ContainsInfix | python/rozum/servo.py:260 | any path with the library name in it passes the `in` test |
| RozumServo.ReturnedHandleAsWritten | python/rozum/servo.py:196-209 | with the default c_int restype a returned handle is a signed 32-bit value congruent to the address modulo 2^32 |
| RozumServo.HandleKeptAsWrittenIff | python/rozum/servo.py:196-209 | as written a handle survives the return exactly when it lies below 2^31 |
| RozumServo.HandleTruncatedAsWritten | python/rozum/servo.py:196-209 | a typical 64-bit heap address loses its upper half |
| RozumServo.ReturnedHandle | python/rozum/servo.py:196-209 | with a c_void_p restype the handle is the address, NULL exactly when it is 0 |
| RozumServo.Servo.constructor | python/rozum/servo.py:94-98 | a Servo keeps the library, its handle and its identifier |
| RozumServo.Servo.SetZeroPositionAsWritten | python/rozum/servo.py:116-117 | as written, the call raises ArgumentError and no native call is made |
| RozumServo.Servo.SetZeroPosition | python/rozum/servo.py:116-117 | with the servo's handle, one rr_set_zero_position call is made |
| RozumServo.Interface.constructor | python/rozum/servo.py:196-199 | one rr_init_interface call, no NULL check, an empty servo registry; the handle is read with the intended c_void_p restype, ReturnedHandle (see Findings) |
| RozumServo.Interface.InitServo | python/rozum/servo.py:205-209 | get-or-create by id: a new id makes one rr_init_servo call and is registered with whatever handle came back, NULL included, read with the intended c_void_p restype, ReturnedHandle (see Findings) |
| RozumServo.ServoApi.constructor | python/rozum/servo.py:235-238 | neither a library nor an interface at first |
| RozumServo.ServoApi.GetInterface | python/rozum/servo.py:240-257 | the interface exactly when both a library and an interface exist; otherwise the library error first, then the interface error |
| RozumServo.ServoApi.LoadLibrary | python/rozum/servo.py:259-263 | a path without libservo_api.so raises and changes nothing; otherwise the first library loaded stays |
| RozumServo.ServoApi.InitInterface | python/rozum/servo.py:265-267 | only the first call with a library opens an interface, its handle read with the intended c_void_p restype (see Findings); later calls do nothing whatever name they pass; without a library it raises and latches nothing |
| RozumServo.ServoApi.InitServo | python/rozum/servo.py:269-270 | the interface property's errors, or the interface's get-or-create by id, a new handle read with the intended c_void_p restype (see Findings) |

## Left out

- Transport and threading: opening the device (termios, sockets, Windows overlapped I/O), `usbcan_write_fd`, `usbcan_flush_device`, the `usbcan_process` thread, the mutex and condition-variable waits of the SDO and state waits, `usbcan_instance_deinit` and `usbcan_send_traj_sync`. None of these has sequential behaviour to state. A blocking SDO exchange is modelled as one request followed by one reply or timeout, given as input.
- The pipe-based IPC (src/usbcan_ipc.c), the `poll` emulation (c/src/poll.c) and logging only move or format bytes, so they are not part of this model.
- crc16_ccitt and crc32: their sources are not part of this model, so they are function-typed parameters.
- Floating point: positions, velocities, accelerations and currents are opaque 4-byte payloads in the C model and `real` values in the Python model. c_float rounding is not modelled.
- Firmware behaviour (trajectory queue execution, the time calculation itself, parameter values, the bus-wide stop on a fault) happens in the servo. Only the requests the host sends and the replies it is given are modelled.
- api.c: the IS_VALID_SERVO / IS_VALID_INTERFACE null checks at the head of every rr_* call are modelled only where a finding depends on them (rr_change_id). CHECK_NMT_STATE expands to nothing and is left out.
- api.c: the rr_* calls that only send one SDO request with fixed arguments (set_velocity, set_current, brake, reboot and the like) are not part of this model.
- fw-update.c: the frame callback while no image is loaded, the final free() of the image, `batch_update`, directory traversal and file reading are left out. The hardware type the servo reports and the image's crc32 are parameters. The reset/read_ident exchange and its 15 s wait appear only as that reported type.
- fw-update.c: block offsets are carried in 24 bits, as written; images of 16 MiB or more, whose offsets would wrap, are not considered.
- fw-update.c: `do_not_wait_halt_responce` is never cleared in the source, so the downloader always starts with it set. The branch it guards is kept.
- Python: `__del__` finalisers, CDLL load failures, `time.sleep`, the formatted arguments of error messages (only their fixed text is kept) and the utf-8 encoding of interface names are left out.
- Python: the native library is a log of calls. The handles and statuses it returns are inputs. The handle rr_change_id_and_save leaves behind through `byref` is an input of the rdrive change_id_and_save. Whatever rr_deinit_interface leaves in the interface handle through `byref` is not reflected back; this matters only for an interface kept after a failed call.
- Python: the constants file of the rdrive package and rozum.util.Singleton are not part of this model. The rozum/servo.py RET and APP_PARAM tuples unpack a `map` rather than a `list`, which binds the same names.
- python/rozum/servo/api.py: `Interface.deinit_interface` is not modelled; it is a single native call whose status is returned.
- PyConstants.ServoParamCodes: states the count and numbering of the 59 parameter names, but not that the names are pairwise distinct.
- UsbcanFrame.ParseComFrame: is the intended parse and requires a payload that fits the message. The parse as written, with its wrapped dlc and its copy past the 8 data bytes, is ParseComFrameAsWritten; the bytes it writes past the message are not modelled.
- UsbcanProto.SdoPollOp: uses the intended, clipped SdoTtl. The unsigned subtraction as written, which can leave a negative ttl that never expires, is stated only by SdoTtlAsWrittenMissesExpiry and SdoPollsAsWrittenNeverExpire.
- UsbcanProto.Monitor.PollSdo: promises SdoPollOp, so it too follows the intended ttl update rather than the code as written.
- UsbcanProto.Monitor.Poll: runs PollSdo, so its SDO branch follows the intended ttl update rather than the code as written.
- UsbcanProto.Monitor.ReceiveFrame: hands a COM_FRAME payload on only through the intended guard and gives a read response the intended SdoReadDataLen. As written every COM_FRAME reaches the callback (ComFrameEventsAsWritten) and a short read response gives a negative length (SdoReadDataLenAsWrittenNegative).
- UsbcanLegacy.LegacyMonitor.ReceiveFrame: the same two intended behaviours as the current driver. The code as written is stated by LegacyComFrameEventsAsWritten and LegacyReadLenAsWrittenNegative.
- RdriveApi.Interface.InitServo: rejects a NULL handle with the intended guard IsNull. As written, the `is None` test cannot fire (NullPassesGuardAsWritten) and a Servo around NULL is registered.
- RdriveApi.Interface.ChangeIdAndSave: looks the servo up through InitServo, so it inherits that intended NULL guard.
- RdriveApi.ServoApi.InitInterface: refuses a NULL handle with the intended guard. As written, neither Interface.__init__ nor init_interface can see a NULL, and the interface is registered.
- RozumApi.Interface.InitServo: rejects a NULL handle with the intended guard IsNull. As written, the `is None` test cannot fire and a Servo around NULL is registered.
- RozumApi.ServoApi.InitInterface: refuses a NULL handle with the intended guard. As written, the checks in Interface.__init__ and init_interface cannot fire.
- RozumApi.Interface.ChangeIdAndSave: logs the intended by-reference servo argument (ChangeIdServoArg). As written the handle is passed by value (ChangeIdServoArgMismatch). What the library then does with it is not modelled.
- RozumServo.Interface.constructor: reads the returned handle with the intended c_void_p restype (ReturnedHandle). As written ctypes reads it as a c_int (ReturnedHandleAsWritten), which is not what this model stores.
- RozumServo.Interface.InitServo: stores the handle read as c_void_p, not the truncated c_int stored as written.
- RozumServo.ServoApi.InitInterface: builds the interface with the handle read as c_void_p, not the truncated c_int stored as written.
- RozumServo.ServoApi.InitServo: a new servo's handle is read as c_void_p, not the truncated c_int stored as written.
- ServoApi.ChangeIdOutcome: decides a null `*servo` with the intended ChangeIdGuard, giving RET_BAD_INSTANCE and no traffic. As written, rr_change_id dereferences `*servo` before testing it (ChangeIdGuardAsWritten, ChangeIdGuardAsWrittenCrashes); the crash itself is not modelled.
- ServoApi.ChangeIdAndSaveOutcome: is built on ChangeIdOutcome, so a null `*servo` follows the intended ChangeIdGuard rather than the crash stated by ChangeIdGuardAsWrittenCrashes.
- ServoApi.ChangeId: decides a null `*servo` with the intended ChangeIdGuard. As written the program crashes there (ChangeIdGuardAsWritten, ChangeIdGuardAsWrittenCrashes).
- ServoApi.ChangeIdAndSave: runs ChangeId, so a null `*servo` follows the intended ChangeIdGuard rather than the crash stated by ChangeIdGuardAsWrittenCrashes.
- FwUpdate.StartOutcome: rejects an image of 8 bytes or fewer with DL_ERROR. As written, a 1-4 byte file reads fw[8] past the buffer (TypeByteAsWritten, TypeByteAsWrittenPastEnd): with identity ignored the 8-byte image is downloaded, otherwise the stray byte decides between DL_WRONG_IDENT and a download. That stray byte is not modelled.
- FwUpdate.Downloader.Prepare: goes on exactly when StartOutcome says so, so a 1-4 byte file records DL_ERROR rather than the as-written read of fw[8] (TypeByteAsWritten, TypeByteAsWrittenPastEnd).
- FwUpdate.Downloader.Update: returns StartOutcome when the download does not start, so a 1-4 byte file gives DL_ERROR rather than the as-written read of fw[8] (TypeByteAsWritten, TypeByteAsWrittenPastEnd).
- UsbcanProto.Monitor.StartWaitDeviceState: refuses ids of 128 and above with the intended WaitArgs. As written only id <= 0 is refused and the per-device tables are indexed past their end (WaitArgsAsWrittenAdmitsPastTable); that access is not modelled.
- UsbcanProto.Monitor.StartWaitBootUp: refuses ids of 128 and above with the intended WaitArgs. As written only id <= 0 is refused (WaitArgsAsWrittenAdmitsPastTable).
- UsbcanLegacy.LegacyMonitor.HbInterval: treats id 128 as outside the table. As written INRANGE(id, 0, 128) admits it and reads one past the arrays (GetterAdmitsAsWrittenOnePast); the value read there is not modelled.
- UsbcanLegacy.LegacyMonitor.DeviceState: treats id 128 as outside the table. As written it reads one past the arrays (GetterAdmitsAsWrittenOnePast).
- The tutorials, tests, configuration tools, documentation sources, packaging and OS parts of c/tutorial/rt.h (scheduler, affinity, latency files) are not part of this model.

## Findings

| source | as written | input that shows it | evidently intended | confidence | as-written member | corrected member |
|---|---|---|---|---|---|---|
| c/src/usbcan_proto.c:206-214 | ttl - delta_ms is computed unsigned because delta_ms is unsigned, so CLIPL's test against 0 never holds; stored back in the signed ttl, an overshoot leaves a negative ttl that the `!ttl` test misses | ttl 5, elapsed 10: the new ttl is -5, not 0; with an odd ttl and even elapsed times the request never expires | a pending SDO whose ttl is used up is reported with the local timeout abort | not executed | UsbcanProto.SdoPollsAsWrittenNeverExpire | UsbcanProto.SdoPollsExpire |
| c/src/usbcan_proto.c:1503-1578 | wait_device_state and wait_device_boot_up refuse only ids <= 0 before indexing the per-device tables | id 128 with timeout 1 passes the check and indexes one past the 128-entry table | ids above 127 are rejected | not executed | UsbcanProto.WaitArgsAsWrittenAdmitsPastTable | UsbcanProto.WaitArgs |
| c/src/usbcan_proto.c:556-582 | the data length of an SDO read response is taken as len - 9 without checking len | a 5-byte read response gives a length of -4 | a response shorter than its header carries no data | not executed | UsbcanProto.SdoReadDataLenAsWrittenNegative | UsbcanProto.SdoReadDataLen |
| src/usbcan_proto.c:113-129 | the getters check INRANGE(id, 0, USB_CAN_MAX_DEV), which admits id 128 | id 128 reads one past the per-device arrays | ids 0..127 only | not executed | UsbcanLegacy.GetterAdmitsAsWrittenOnePast | UsbcanLegacy.LegacyMonitor.HbInterval |
| c/src/api.c:1236-1254 | rr_read_error_status scans the error byte through the same buffer it writes the bit indices into | error byte 0x03 with error_array given: writing index 0 over the byte loses bit 1 | every set bit is reported | not executed | ServoApi.InPlaceScanLosesBits | ServoApi.ReadErrorStatus |
| c/src/api.c:1518-1544 | an inner `sts` shadows the outer one, so a failed read of the calculated time still returns RET_OK | the time read fails after a successful calculation request | the read failure is returned | not executed | ServoApi.TimeCalcAsWrittenHidesReadFailure | ServoApi.InvokeTimeCalculation |
| c/src/api.c:1650-1656 | rr_change_id dereferences *servo before checking the servo pointer | a NULL servo pointer | the null check comes first and returns an error | not executed | ServoApi.ChangeIdGuardAsWrittenCrashes | ServoApi.ChangeIdGuard |
| c/tools/fw-update-tool/fw-update.c:405-438 | the firmware type byte fw[8] is read when the prepared image is only 8 bytes long | a 1-byte firmware file | images without a type byte are rejected | not executed | FwUpdate.TypeByteAsWrittenOneByteFile | FwUpdate.StartOutcome |
| python/rdrive/servo/api.py:855-863 | the NULL checks test `c_void_p(...) is None`, which is never true; the same test guards init_servo (902-907), and init_interface (1124-1130) tests the Interface object itself | rr_init_interface or rr_init_servo returns NULL | NULL handles are rejected | not executed | PyRuntime.NullPassesGuardAsWritten | PyRuntime.IsNull |
| python/rozum/servo/api.py:133 | set_zero_position passes the library object where the servo handle belongs | any call | the servo's handle is passed | not executed | RozumApi.Servo.SetZeroPositionAsWritten | RozumApi.Servo.SetZeroPosition |
| python/rozum/servo.py:116-117 | set_zero_position passes the library object where the servo handle belongs | any call | the servo's handle is passed | not executed | RozumServo.Servo.SetZeroPositionAsWritten | RozumServo.Servo.SetZeroPosition |
| python/rozum/servo/api.py:525-528 | change_id_and_save passes the servo handle by value where rr_change_id_and_save takes `rr_servo_t **` | any call | the handle is passed by reference, as the rdrive binding does | not executed | RozumApi.ChangeIdServoArgMismatch | RozumApi.ChangeIdServoArg |
| python/rozum/servo.py:196-209 | no restype is declared, so returned handles are read as 32-bit c_int | a handle at 0x555555550000 comes back as 0x55550000 | handles are read as c_void_p | not executed | RozumServo.HandleTruncatedAsWritten | RozumServo.ReturnedHandle |
| python/rozum/servo/api.py:499-506 | init_servo tests `c_void_p(...) is None`, which is never true; Interface.__init__ (460-466) does the same, and init_interface (634-636) tests the Interface object itself | rr_init_servo or rr_init_interface returns NULL | NULL handles are rejected | not executed | PyRuntime.NullPassesGuardAsWritten | PyRuntime.IsNull |
| c/src/usbcan_proto.c:481-518 | usbcan_parse_com_frame stores the payload length less the header into the uint8_t dlc with no check, memcpy's that many bytes into the 8-byte data, and the callback is always called | a 2-byte COM_FRAME payload with a standard identifier gives dlc 255; a 12-byte one gives dlc 9 | payloads that do not fit the message are not handed on | not executed | UsbcanProto.ComFrameAsWrittenOverruns | UsbcanFrame.ParseComFrame |
| src/usbcan_proto.c:332-370 | the legacy driver parses and hands on every COM_FRAME payload in the same way | a 2-byte COM_FRAME payload with a standard identifier gives dlc 255 | payloads that do not fit the message are not handed on | not executed | UsbcanLegacy.LegacyComFrameAsWrittenOverruns | UsbcanFrame.ParseComFrame |
| src/usbcan_proto.c:421-430 | the legacy read response hands the waiter len - p bytes without checking len | a 5-byte read response gives a length of -4 | a response shorter than its header carries no data | not executed | UsbcanLegacy.LegacyReadLenAsWrittenNegative | UsbcanProto.SdoReadDataLen |

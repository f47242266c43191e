# Seismic datalogger core, modelled in Dafny

The firmware samples seven seismic channels for 1500 ticks at 100 Hz. Their
samples go into one of three 27026-byte packages, and each full package
travels through FreeRTOS pointer queues. It is posted to a server over Wi-Fi
or stored on an SD card, and files on the card are replayed once the link
returns. This project models the logic of that core:

- `bytes.dfy` (module `Bytes`): the `uint16_t` range and the byte a small
  number is stored in.
- `layout.dfy` (module `Layout`):
  - `buffer_general_calc`, with its `uint16_t` arithmetic written out;
  - the 18-byte control header and sensor ids that `reset_buffer` writes;
  - the scatter loop of `fill_buffer_with_sensor_task`, which places each
    tick's 18-byte record into seven sensor regions;
  - completion of a package with the clock's timestamp and status byte 0.
- `timestamp.dfy` (module `Timestamp`):
  - `sntp_parse_string`;
  - the DS3231 BCD encoding of `ds3231_set_datetime`;
  - the BCD decoding and ASCII conversion of `ds3231_get_datetime`;
  - the year check of `sntp_config`.
- `flags.dfy` (module `Flags`):
  - the eight event-group bits of `flags_hardware_available`;
  - the Wi-Fi/IP event handler;
  - the flag effects of `sd_mount_card`;
  - the card-detect transition of `sd_cd_monitor_task`.
- `storage.dfy` (module `Storage`):
  - the file name taken from header bytes 6..17 and the path array built
    around it;
  - the card as a map from names to contents, with the writer's store and
    the replay's load;
  - the `sd_list_files` window and the `uint8_t` count its caller keeps.
- `delivery.dfy` (module `Delivery`):
  - the decision of `full_buffer_selection_go_to_task` for one full buffer;
  - its housekeeping drain loop;
  - the retry logic of `send_buffer_wifi_task`.
- `pipeline.dfy` (module `Pipeline`): the task loops as a state machine.
  - The state holds:
    - the empty, full, Wi-Fi and SD queues as sequences of buffer ids;
    - the file-name queue;
    - the flag set and the retry counter;
    - what each task holds;
    - the payload (timestamp) each buffer carries, the files on the card
      and the payloads the server accepted.
  - Each task loop body is modelled as one atomic step, except two:
    - the Wi-Fi sender is split at its blocking points: receive, take the
      Wi-Fi token, post;
    - SNTP is split at its blocking points too: wait for WIFI_CONNECTED,
      take the Wi-Fi token, return it once the clock is read.

    The SD writer and the replay are not split: their blocking points
    inside one body are taken together (see "Left out").
  - The Wi-Fi event handler and card detection are environment steps.
  - `Step` runs the corrected router and drain. The router and drain as
    written are separate steps, used only by the findings below.
  - `Step`'s lister queues the rows actually read. That is the corrected
    count `Storage.ReadCount`: none when the directory cannot be opened.
    The `uint8_t` count as written wraps to 255 in that case
    (`Storage.ReadCountOverrun`).

Over any run of the pipeline, with the task bodies atomic as above, two
things are proved:

- the three buffer handles are conserved (`RunConservesHandles`);
- with the corrected router, no sampled payload is ever lost
  (`RunKeepsPayloads`).

Over any run with no got-IP event while the Wi-Fi token is held
(`AdmissibleRun`), three more things are proved (`RunPreservesInv`):

- the Wi-Fi busy token stays a mutex;
- the retry counter stays within `MAX_RETRY_SEND_WIFI`;
- the SD token is offered only with a mounted card. This one rests on the
  atomic SD task bodies: a card removal that runs inside a body breaks it
  (`ListerRaceOffersUnmountedToken`).

The same state machine also proves what goes wrong in the code as written:

- **Router.** The router as written recycles a payload as an empty buffer.
- **Got-IP event.** A got-IP event arriving while the token is held gives the
  Wi-Fi token a second holder.
- **SNTP past its link wait.** SNTP checks the link only before it waits for
  the token. The link can drop in between; the sender's failed post then
  returns the token, and SNTP takes it with the link down.
- **Failed `fopen`.** A failed `fopen` in the SD writer or the replay loader
  makes the task function return. On ESP-IDF a FreeRTOS task function that
  returns aborts the firmware; the model stops at the point of return and
  shows what the return leaves behind: the task's buffer is in no queue,
  and the SD token is down until a card-detect event.
- **Listing offset.** The lister's offset can queue a name twice. The second
  copy's file is gone by the time it is replayed, so the replay fails on it.

## Model

| member | source | states |
|---|---|---|
| Layout.Offset | main/main.c:200-204 | every sensor's first sample byte lies past the 18 control bytes and its own id byte |
| Layout.OffsetClosedForm | main/main.c:200-204 | the recurrence offset[i+1] = offset[i] + 1 + 1500·bytes[i] from offset[0] = 19 has the closed form 19 + i + 1500·(bytes of the earlier sensors) |
| Layout.LastRegionEndsAtMax | main/main.c:196-212 | the last sensor's region ends exactly at max_buffer_size, so the status byte at that index (allocated as max_buffer_size + 1) is in no region |
| Layout.RegionBeforeLaterId | main/main.c:200-204 | each sensor's region ends before the id byte of every later sensor, so regions and ids never overlap |
| Layout.RegionWithinMax | main/main.c:196-212 | every region lies between the header and the transmitted size |
| Layout.BufferGeneralCalc | main/main.c:196-217 | the loop, with the last sensor handled after it, leaves in its `uint16_t` globals the 16-bit images of every offset, of the transmitted size and of the bytes per tick |
| Layout.NoWrapBelowU16 | main/main.c:153-212 | when the transmitted size stays below 65536, every offset, region end, id position and the size itself equal their `uint16_t` images, so the model's unbounded positions are the firmware's |
| Layout.FirmwareLayout | main/main.c:140-181 | the firmware's constants give offsets 19, 4520, 9021, 13522, 18023, 21024 and 24025 and a size of 27025, with 18 bytes per tick, which fits in 16 bits without wrapping |
| Layout.BigEndian16 | main/main.c:233-253 | a 16-bit field is stored as two bytes, high byte first, and reading them back gives the value's low 16 bits |
| Bytes.ToByte | main/main.c:235-253 | a value below 256 cast to a byte reads back as the same value |
| Layout.Header | main/main.c:233-274 | the 18 control bytes are items (big-endian), sensor count, sample rate (big-endian), station id, then twelve zero timestamp bytes |
| Layout.IdIndex | main/main.c:278-283 | each id byte (offset − 1) is a control position inside the transmitted bytes |
| Layout.WriteIds | main/main.c:278-283 | the id loop puts id_sensor[i] at offset[i] − 1 for every sensor written so far and changes no other byte |
| Layout.ResetBuffer | main/main.c:227-284 | reset_buffer writes the 18 header bytes and the seven id bytes and leaves every other byte past the header as it was |
| Layout.FirmwareHeader | main/main.c:233-274 | the header is 1500 big-endian (0x05 0xDC), 7 sensors, 100 Hz big-endian, station 'A', then twelve zero bytes |
| Layout.SampleInRegion | main/main.c:710-716 | byte j of tick k of sensor s lands at offset[s] + k·bytes[s] + j, inside that sensor's region |
| Layout.SampleIndexInjective | main/main.c:709-718 | distinct (sensor, tick, byte) triples are written to distinct indices |
| Layout.SampleAvoidsControlBytes | main/main.c:710-716 | no sample byte touches the header, an id byte or the status byte |
| Layout.PackTick | main/main.c:708-719 | one tick keeps the buffer length (its slot contents are stated by PackSensorsSpec) |
| Layout.PackSensorsSpec | main/main.c:708-719 | after one tick each sensor's slice of the record sits in its slot, and every byte outside the tick's slots is unchanged |
| Layout.PackTickLoop | main/main.c:708-719 | the nested loop, with its running record position, computes exactly the per-sensor slot copy |
| Layout.FirmwareRecordPositions | main/main.c:694-706 | the three sensor tasks' records are received at record positions 0, 3 and 12, the prefix sums of the widths before sensors 0, 1 and 4 |
| Layout.FillTicks | main/main.c:689-720 | the tick loop keeps the buffer length (its contents are stated by FillTicksSpec) |
| Layout.FillTicksSpec | main/main.c:689-720 | after all ticks every sample slot holds its tick record's byte, and every other byte is unchanged |
| Layout.ControlNotSample | main/main.c:689-726 | header, id and status positions are in no tick's sample slots |
| Layout.Complete | main/main.c:722-726 | completion keeps the length and leaves status byte 0 at max_buffer_size |
| Layout.CompleteAt | main/main.c:722-726 | completion puts the 12 clock bytes at 6..17 and status 0 at max_buffer_size and changes nothing else |
| Layout.Package | main/main.c:682-726 | a duty cycle keeps the buffer length and ends with status byte 0 |
| Layout.ResetPrepares | main/main.c:227-284 | reset_buffer leaves any buffer prepared: header fields and sensor ids in place |
| Layout.PackageControl | main/main.c:682-726 | for any buffer, every control byte of the finished package is the stamp byte (6..17) or the byte the buffer held before |
| Layout.PackageSample | main/main.c:689-720 | for any buffer, every sample slot of the finished package holds the matching byte of its tick's record |
| Layout.PackageLayout | main/main.c:655-734 | a duty cycle on a prepared buffer (one reset_buffer wrote, or one reused from an earlier cycle or a replay) gives the constant header fields, the stamp at 6..17, every sensor id, every sample in its slot and status byte 0, and leaves the buffer prepared |
| Timestamp.SntpParse | main/sntp_config.c:51-82 | the year comes from date[6..7], the month from date[0..1] and the day from date[3..4]; hour, minute and second come from time[0..1], time[3..4] and time[6..7]; each output is its character minus '0' |
| Timestamp.SntpParseIgnoresSeparators | main/sntp_config.c:51-82 | positions 2 and 5 of both strings, and anything past the eighth character, are never read |
| Timestamp.SntpParseDigits | main/sntp_config.c:56-77 | ASCII digits become digit values 0..9, the form the RTC encoder packs |
| Timestamp.RegisterOfInjective | main/i2c_ds3231.c:50-62 | the six digit pairs go to six distinct time registers, none of them the day-of-week register |
| Timestamp.PackPair | main/i2c_ds3231.c:50-62 | a digit pair packs tens in the high nibble and units in the low nibble, and both can be recovered |
| Timestamp.Encode | main/i2c_ds3231.c:50-62 | seconds→raw[0], minutes→raw[1], hours→raw[2], date→raw[4], month→raw[5], year→raw[6], each packed BCD; raw[3] is 1 |
| Timestamp.SetDatetime | main/i2c_ds3231.c:45-81 | the 7-byte block is written from REG_SECONDS and the other registers are unchanged |
| Timestamp.DigitAt | main/i2c_ds3231.c:111-129 | each decoded digit is a nibble; the month tens come from bit 4 only (at most 1) and the hour tens from bits 5-4 (at most 3) |
| Timestamp.Decode | main/i2c_ds3231.c:111-134 | the decoder produces exactly 12 bytes, each a nibble value plus '0' |
| Timestamp.GetDatetime | main/i2c_ds3231.c:88-135 | the reading is 12 bytes, each at most 15 above '0', so none is NUL |
| Timestamp.GetDatetimeReadsTimeRegisters | main/i2c_ds3231.c:88-135 | the reading depends only on the seven time registers |
| Timestamp.DecodeIgnoresFlags | main/i2c_ds3231.c:111-129 | the day-of-week register, the century flag (bit 7 of the month) and the 12/24-hour bit never reach the output |
| Timestamp.DecodeAsciiDigits | main/i2c_ds3231.c:132-134 | registers whose nibbles are at most 9 read back as twelve ASCII digits |
| Timestamp.RoundTrip | main/i2c_ds3231.c:50-134 | decode(encode(d)) is d in ASCII if and only if every digit fits its BCD field (month tens ≤ 1, hour tens ≤ 3, others ≤ 15) |
| Timestamp.RegisterRoundTrip | main/i2c_ds3231.c:45-135 | setting then getting the clock through the register file returns the twelve digits in ASCII, whatever the other registers hold |
| Timestamp.SntpParseRepresentable | main/sntp_config.c:51-82 | digit strings with month tens ≤ 1 and hour tens ≤ 2 parse into values the registers can hold |
| Timestamp.SntpToStamp | main/sntp_config.c:127-137 | the clock read back after sntp_config holds the SNTP characters in YYMMDDHHmmSS order |
| Timestamp.ClockUsed | main/sntp_config.c:100-108 | the system clock is used if and only if it reads 2016 or later; otherwise the time fetched over NTP is used |
| Flags.Bit | main/task_list.h:10-19 | each flag occupies one bit of the event-group word |
| Flags.Word | main/task_list.h:10-21 | a flag set's word has exactly the bits of its flags |
| Flags.FlagsOf | main/task_list.h:10-21 | the flags of a word are exactly those whose bit is set |
| Flags.WordRoundTrip | main/task_list.h:10-21 | flag sets and 8-bit words correspond one to one |
| Flags.AllFlagsWord | main/task_list.h:10-21 | a flag set's word is ALL_FLAGS_HARDWARE (0xFF) if and only if the set holds all eight flags |
| Flags.OnWifiEvent | main/wifi_functions.c:14-35 | station start changes nothing; a disconnect clears CONNECTED and AVAILABLE and sets FAIL; got-IP sets CONNECTED and AVAILABLE and clears FAIL; no event touches the SD, FILES or ITEMS bits |
| Flags.WifiEventOverrides | main/wifi_functions.c:21-32 | after a disconnect or got-IP the Wi-Fi bits do not depend on earlier events, so repeating the event changes nothing |
| Flags.Mount | main/sd_config.c:68-84 | a mount sets SD_MOUNTED and SD_AVAILABLE only if it succeeds; a failed mount changes no flag |
| Flags.CardBoot | main/sd_config.c:129-137 | last_state starts at 1, and a low pin at boot tries a mount |
| Flags.OnCardDetect | main/sd_config.c:139-161 | a level equal to last_state changes nothing; level 0 tries a mount; level 1 while mounted clears SD_MOUNTED and SD_AVAILABLE; level 1 while unmounted changes no flag |
| Flags.CardDetectSteady | main/sd_config.c:141-146 | with a steady pin a second interrupt changes nothing |
| Flags.RemovalDropsCard | main/sd_config.c:147-156 | a removal leaves the card unmounted and the SD token down whenever the token was offered only with a mounted card |
| Storage.NameOf | main/main.c:372-374 | the file name is bytes 6..17 of the package |
| Storage.NameOfPackage | main/main.c:722 | for any buffer, a finished package's file name is the timestamp it was given |
| Storage.PathArrayAsWritten | main/main.c:352-374 | the 21-byte path array holds "/sd/data/" and then the 12 name bytes, with no room left |
| Storage.PathAsWrittenUnterminated | main/main.c:352-380 | for any RTC reading the path array holds no NUL, so `fopen` reads past the array |
| Storage.PathArray | main/main.c:352-374 | the corrected array is one byte longer and ends in NUL |
| Storage.PathNamesTheFile | main/main.c:352-380 | with the terminator, `fopen` sees exactly "/sd/data/" followed by the name |
| Storage.StoreFile | main/main.c:380-391 | the writer creates or truncates the file, stores the first max_buffer_size bytes, and leaves every other file unchanged |
| Storage.LoadFile | main/main.c:619-636 | the replay reads max_buffer_size bytes, sets the status byte to 1, deletes the file and leaves the others unchanged |
| Storage.StoreLoadRoundTrip | main/main.c:380-636 | storing a package and replaying it into any buffer restores bytes 0..max_buffer_size−1, sets the status to 1 and leaves the card as before |
| Storage.ReplayKeepsPrepared | main/main.c:380-636 | a prepared package stored and replayed into any pool buffer leaves that buffer prepared, so the next duty cycle on it yields a well-formed package |
| Storage.SameStampOverwrites | main/main.c:380 | two packages with the same timestamp share a file, and the later one replaces the earlier |
| Storage.Window | main/sd_config.c:189-198 | row i is the first 12 bytes of directory entry offset + i, and there are at most max rows |
| Storage.ListFiles | main/sd_config.c:177-203 | the rows are the window; the result is each_file − offset, which is −offset when the directory cannot be opened and negative when it has fewer than offset entries, and never more than max |
| Storage.ReadCountAsWritten | main/main.c:542-552 | the caller's `uint8_t` keeps the result only when it is in 0..255 |
| Storage.ReadCountOverrun | main/main.c:552-569 | an unopenable directory with one name queued gives a count of 255, more than the 5-row matrix |
| Storage.NegativeResultOverruns | main/main.c:552-569 | every negative result from −250 to −1 wraps to more than 5 rows |
| Storage.ReadCount | main/main.c:552-561 | the corrected count is 0 for a failed or empty listing and the row count otherwise |
| Storage.ListForQueue | main/main.c:552-569 | with the corrected count the names queued are exactly the window, at most 5, and FILES_AVAILABLE stays up exactly when the window is full |
| Delivery.RouteAsWritten | main/main.c:461-497 | CONNECTED sends the buffer to the Wi-Fi queue; otherwise MOUNTED sends it to the SD queue whatever its status byte; otherwise it goes to the empty queue |
| Delivery.RouteAsWrittenRecycles | main/main.c:444-497 | the router as written recycles a full buffer as empty if and only if neither CONNECTED nor MOUNTED is set, and its choice does not depend on the status byte |
| Delivery.Route | main/main.c:491-497 | the corrected router never recycles: a buffer that can go nowhere returns to the back of the full queue |
| Delivery.RoutesAgreeExceptRecycling | main/main.c:470-497 | the two routers agree exactly when the router as written does not recycle |
| Delivery.DrainAsWritten | main/main.c:505-512 | the loop bound re-reads a shrinking count, so one pass moves only the first ⌈n/2⌉ handles, in order, and leaves items behind whenever n ≥ 2 |
| Delivery.Drain | main/main.c:503-524 | the corrected pass moves every stuck handle to the back of the full queue, in order |
| Delivery.DrainConserves | main/main.c:506-523 | a pass of either drain drops and duplicates no handle |
| Delivery.SendStep | main/main.c:314-336 | success goes to the empty queue and resets the counter; a failure below 5 goes to the front of the Wi-Fi queue and counts one more; a failure at 5 with a mounted card goes to the SD queue and resets the counter; otherwise the buffer goes back to the front with the counter kept, which stays within 0..5 |
| Delivery.FailuresRetry | main/main.c:320-324 | up to 5 consecutive failures each count one retry and requeue at the front |
| Delivery.SixthFailureFallsBack | main/main.c:299-336 | from a reset counter a buffer reaches the SD queue on the sixth consecutive failure and not before; with no card it is requeued for ever |
| Pipeline.Dispatch | main/main.c:470-497 | the head of the full queue leaves it and joins the back of the chosen queue; the other queues are unchanged and the multiset of queued handles is kept |
| Pipeline.Enqueue | main/main.c:473-496 | a send to the back of a queue adds exactly that handle there and changes no other queue |
| Pipeline.Drained | main/main.c:500-524 | the corrected drain appends the Wi-Fi queue (link down) and the SD queue (card out) to the full queue, keeps every handle, and changes nothing when both are up |
| Pipeline.DrainedAsWritten | main/main.c:500-524 | the drain as written appends only the first ⌈n/2⌉ handles of each stuck queue to the full queue, leaves the rest where they were, and keeps every handle |
| Pipeline.Place | main/main.c:314-336 | each send outcome puts the buffer at the place the retry logic names and adds exactly that handle |
| Pipeline.Routed | main/main.c:432-524 | one router iteration keeps every queued handle and the empty queue; an arriving full buffer joins the back of the Wi-Fi queue with CONNECTED, else the back of the SD queue with MOUNTED, else the back of the full queue; with none arriving, the stuck queues are drained |
| Pipeline.RoutedAsWritten | main/main.c:432-524 | the router as written keeps every queued handle too |
| Pipeline.Init | main/main.c:941-992 | start-up puts the three handles in the empty queue, leaves FILES_AVAILABLE as the only non-SD flag, mounts the card exactly when the boot pin is low and the mount succeeds, and starts every task idle with nothing queued, stored or posted |
| Pipeline.SampleStep | main/main.c:679-732 | with no empty buffer nothing changes; otherwise the first empty handle moves to the back of the full queue, its payload becomes the clock's stamp and no other buffer's payload changes, and the Wi-Fi and SD queues and the rest of the state are untouched |
| Pipeline.RouterStep | main/main.c:432-524 | the corrected router keeps every handle, the empty queue and the rest of the state. An arriving full buffer joins the back of the Wi-Fi queue when CONNECTED is set, else the back of the SD queue when MOUNTED is set, else the back of the full queue. With none arriving, the Wi-Fi queue is drained when CONNECTED is clear and the SD queue when MOUNTED is clear |
| Pipeline.RouterStepAsWritten | main/main.c:432-524 | the router as written keeps every handle, but with neither link up the full buffer joins the empty queue |
| Pipeline.ReceiveStep | main/main.c:303 | an idle sender takes the head of the Wi-Fi queue, which keeps its other handles in order, and no other queue changes; otherwise nothing changes |
| Pipeline.AcquireStep | main/main.c:306 | a waiting sender proceeds exactly when WIFI_AVAILABLE is set, and clears it |
| Pipeline.PostStep | main/main.c:311-339 | a sending sender becomes idle and returns WIFI_AVAILABLE. A success puts the buffer at the back of the empty queue, the payload on the server and the counter at 0. A failure below MAX_RETRY_SEND_WIFI puts it at the front of the Wi-Fi queue and counts up. A later failure sends it to the back of the SD queue (counter 0) when MOUNTED is set, else to the front of the Wi-Fi queue (counter kept). Nothing but the sender, the counter, the flags, the queues and the server's payloads changes |
| Pipeline.WriteStep | main/main.c:362-399 | with the token and a queued buffer, a successful store puts the payload on the card, recycles the buffer and raises SD_AVAILABLE and FILES_AVAILABLE; a failed `fopen` returns holding the buffer with SD_AVAILABLE cleared; nothing but the queues, the card, the flags and the writer changes |
| Pipeline.ListStep | main/main.c:544-569 | the lister appends exactly the listing window that starts at the number of names already queued, nothing when the directory cannot be opened, and clears FILES_AVAILABLE when it queues fewer than MAX_OPEN_FILES |
| Pipeline.WakeStep | main/main.c:574 | the lister wakes exactly when FILES_AVAILABLE and CONNECTED are both set |
| Pipeline.ReplayStep | main/main.c:598-644 | with the link, a name, the token and an empty buffer, a replay moves the file's payload from the card into a full buffer, changing no other buffer's payload; a failed `fopen` returns holding the empty buffer with SD_AVAILABLE cleared and no payload changed; both consume the name; the sender, the writer, SNTP, the counter and the lister are untouched |
| Pipeline.SntpLinkStep | main/sntp_config.c:89-90 | SNTP passes its first wait exactly when WIFI_CONNECTED is set, and leaves the bit set |
| Pipeline.SntpBeginStep | main/sntp_config.c:92-93 | past the link wait, SNTP takes the Wi-Fi token exactly when WIFI_AVAILABLE is set, clearing it; the link is not looked at again |
| Pipeline.SntpEndStep | main/sntp_config.c:127-131 | SNTP returns the token it holds and is done |
| Pipeline.Step | main/main.c:299-734 | only card detection moves the pin; Wi-Fi events touch only Wi-Fi bits and card detection only SD bits; only the writer and the replay change the card; only a post adds to the server's payloads |
| Pipeline.Run | main/main.c:299-734 | over any run the server's payloads only grow, and without card events the pin is kept |
| Pipeline.InitInv | main/main.c:941-992 | start-up with three handles in the empty queue, cleared flags and the boot card check satisfies the invariant |
| Pipeline.SampleConserves | main/main.c:682-732 | filling a buffer moves a handle from the empty to the full queue |
| Pipeline.ReceiveConserves | main/main.c:302 | the sender taking a buffer moves its handle out of the Wi-Fi queue |
| Pipeline.WriteConserves | main/main.c:362-399 | the SD writer returns the handle to the empty queue, or keeps it when it returns on a failed `fopen` |
| Pipeline.ReplayConserves | main/main.c:598-644 | the replay moves an empty handle to the full queue, or keeps it when it returns on a failed `fopen` |
| Pipeline.RouterConserves | main/main.c:432-524 | the router keeps every handle |
| Pipeline.PostConserves | main/main.c:311-336 | the sender places the handle it holds and no other |
| Pipeline.FlagStepsConserve | main/main.c:545-574 | the lister, the token steps, the Wi-Fi events and card detection move no handle |
| Pipeline.StepConservesHandles | main/main.c:941-959 | no step creates, drops or duplicates one of the three handles |
| Pipeline.RouterAsWrittenConserves | main/main.c:494-497 | the router as written also keeps every handle: what it loses is the payload, not the buffer |
| Pipeline.WifiTokenUntouched | main/main.c:306-339 | steps that neither take nor return the Wi-Fi token leave it and its holders alone |
| Pipeline.CardKeepsWifiToken | main/sd_config.c:139-161 | card detection leaves the Wi-Fi token alone |
| Pipeline.WifiTokenStep | main/main.c:306-339 | the Wi-Fi token keeps at most one holder, and none while it is offered, across every admissible step |
| Pipeline.SdTokenUntouched | main/main.c:368-395 | steps that do not use the card leave SD_AVAILABLE and SD_MOUNTED alone |
| Pipeline.WifiEventKeepsSdToken | main/wifi_functions.c:14-35 | Wi-Fi events leave the SD bits alone |
| Pipeline.SdTokenStep | main/sd_config.c:81-155 | SD_AVAILABLE is set only while SD_MOUNTED is, after every step |
| Pipeline.RetriesStep | main/main.c:299-336 | the retry counter stays within MAX_RETRY_SEND_WIFI |
| Pipeline.StepPreservesInv | main/main.c:299-643 | handle conservation, the retry bound and both token properties hold after every admissible step |
| Pipeline.RunPreservesInv | main/main.c:299-643 | …and after every admissible run |
| Pipeline.RunConservesHandles | main/main.c:941-959 | over any run, admissible or not, each of the three handles stays in exactly one queue or task |
| Pipeline.SampleKeepsPayloads | main/main.c:682-732 | a fresh stamp becomes a carried payload, and no accounted payload is lost when a buffer is refilled |
| Pipeline.RouterKeepsPayloads | main/main.c:461-524 | the corrected router and drain neither lose nor invent a payload |
| Pipeline.ReceiveKeepsPayloads | main/main.c:302 | a payload the sender takes stays accounted for |
| Pipeline.PostKeepsPayloads | main/main.c:311-336 | after a post the payload is on the server or still carried |
| Pipeline.WriteKeepsPayloads | main/main.c:362-399 | a stored payload is on the card; a failed store leaves it stranded with the writer |
| Pipeline.ReplayKeepsPayloads | main/main.c:598-644 | a replayed file becomes a carried payload before it leaves the card |
| Pipeline.QuietStepKeepsPayloads | main/main.c:545-574 | steps that move no buffer change no payload |
| Pipeline.MovingStepKeepsPayloads | main/main.c:299-734 | every step that moves a buffer keeps each accounted payload, given that the first empty buffer is in no other place |
| Pipeline.StepKeepsPayloads | main/main.c:299-734 | with the corrected router and the three handles distinct, no step loses a payload |
| Pipeline.RunKeepsPayloads | main/main.c:299-734 | over any run from distinct handles, whatever the Wi-Fi events, every sampled payload stays on the server, on the card, in a buffer, or with a returned task |
| Pipeline.ListerRaceOffersUnmountedToken | main/main.c:549-555 | if a card removal runs between the lister's take and its set of SD_AVAILABLE, the set offers the token with no card mounted |
| Pipeline.RouterAsWrittenDropsPayload | main/main.c:494-497 | with neither link up, the router as written loses a payload that is nowhere else |
| Pipeline.TokensReturned | main/main.c:306-339 | the sender returns the Wi-Fi token after every post; SNTP returns it once the clock is read; the SD tasks keep SD_AVAILABLE up after a successful store, replay or listing |
| Pipeline.GotIpBreaksExclusion | main/wifi_functions.c:28-32 | from any state where the token is a mutex, a got-IP event while the sender posts offers the token under it, and SNTP, before or past its link wait, can then take it too: two holders |
| Pipeline.SntpTakesTokenOffline | main/sntp_config.c:89-93 | with SNTP past its link wait and the sender posting, a disconnect and a failed post leave the token offered with the link down, and SNTP takes it |
| Pipeline.ExitedStays | main/main.c:381-384 | a task that returned stays returned, holding the same buffer |
| Pipeline.RunKeepsExited | main/main.c:620-623 | …over every run |
| Pipeline.ExitedHandlesLost | main/main.c:620-623 | a returned task's buffer is in no queue and not with the sender; once both tasks have returned, one buffer circulates |
| Pipeline.WriterFailureTakesSdToken | main/main.c:368-384 | a failed `fopen` in the SD writer returns holding the buffer and with SD_AVAILABLE cleared |
| Pipeline.SdTokenLost | main/main.c:368-395 | with SD_AVAILABLE down no task touches the card, and only card detection can raise it |
| Pipeline.SdTokenLostUntilCardEvent | main/sd_config.c:141-156 | until a card-detect event, the token stays down and the card contents stay the same |
| Pipeline.ListingCanRepeat | main/main.c:552-569 | the lister's offset is the number of names queued; when the directory entry at that offset is already queued, it is queued again |
| Pipeline.StaleNameStrands | main/main.c:605-623 | replaying a name whose file is gone returns holding an empty buffer, with SD_AVAILABLE cleared |
| Pipeline.DuplicateNameGoesStale | main/main.c:619-633 | a name queued twice is stale once its first copy is replayed, and the second replay returns holding a buffer |

## Left out

- I/O is left out. SPI/I2C sensor reads, the HTTP post, `fopen`/`fread`/`fwrite`/`remove`, `opendir`/`readdir` and the RTC bus are not modelled. Instead, the Dafny takes parameters: sample records are arbitrary byte sequences, the post outcome and `fopen` success are booleans, the directory listing is a sequence of entries, and the card is a map from names to contents.
- Stamps stand in for payloads: the pipeline tracks each buffer's payload by its timestamp, which is also its file name.
- FreeRTOS scheduling is left out: priorities, preemption, delays and the 500-tick receive timeout. Each loop body is one atomic step, except the Wi-Fi sender's and SNTP's, which are split at their blocking points; a blocked step leaves the state unchanged. The SD writer, the lister and the replay are not split, so what other tasks can do between their blocking points is not represented. The lines below name what each of them therefore does not promise.
- Pipeline.WriteStep: the writer dequeues a buffer (main/main.c:365) and only then blocks on SD_AVAILABLE (main/main.c:368). The model takes both at once and leaves the buffer in the SD queue until the token is there. On the target, a card removal in that window leaves the buffer with the writer, out of the reach of the router's drain (main/main.c:515-522), until the card returns.
- Pipeline.ReplayStep: the replay checks WIFI_CONNECTED only at main/main.c:602 and then blocks on the name queue (605), SD_AVAILABLE (610) and an empty buffer (613). The model requires the link to be up when the whole body runs. On the target the link can drop after 602, and the replay then holds SD_AVAILABLE while it waits for an empty buffer.
- Pipeline.SdTokenStep, Pipeline.StepPreservesInv, Pipeline.RunPreservesInv: "SD_AVAILABLE only with SD_MOUNTED" is proved for atomic SD task bodies only. The card-detect task runs at priority 10 (main/sd_config.c:245) and can clear both bits (main/sd_config.c:153-155) between the lister's take (main/main.c:549) and its unconditional set (main/main.c:555), or inside the writer's 368-395 and the replay's 610-640. The set then offers the token with no card mounted; Pipeline.ListerRaceOffersUnmountedToken exhibits this for the lister.
- Pipeline.ExitedHandlesLost, Pipeline.ExitedStays, Pipeline.RunKeepsExited, Pipeline.SdTokenLostUntilCardEvent, Pipeline.StaleNameStrands, Pipeline.DuplicateNameGoesStale: a FreeRTOS task function that returns (main/main.c:383, 622) aborts the firmware on ESP-IDF. These members model only the state the return leaves, with the other tasks carrying on. They do not model the abort and restart that follow on the target.
- Layout.Package, Layout.PackageLayout, Layout.FillTicks, Layout.Offset: positions are unbounded naturals, while the firmware holds them in `uint16_t` (main/main.c:153, 156, 184, 231, 670). They agree with the firmware only when the transmitted size is below 65536, which Layout.NoWrapBelowU16 proves and Layout.FirmwareLayout shows for the firmware's constants (27025). A configuration past 16 bits is not given the firmware's wrapped positions; Layout.BufferGeneralCalc alone models the wrap-around.
- Queue capacities are left out: 3 for the buffer queues and 10 for the file-name queue. Sequences are unbounded, and a send never blocks on a full queue.
- The router's drain loop is modelled with a receive that always succeeds. The 100-tick receive timeout is left out.
- The `strftime` formatting, the time zone, `obtain_time` and `initialize_sntp` are left out. `sntp_config` is modelled through its string parse, its year check and its token use.
- The sensor drivers, bus set-up, timer ISR, logging and `check_free_ram_task` are not part of this model.
- A failed heap allocation at start-up is left out: all three buffers are assumed to be allocated.
- `sd_unmount_card` is modelled only through its flag effects.
- Pipeline.RunKeepsPayloads: payloads are tracked as a set, not a multiset. Two packages with the same stamp therefore count as one, matching the card, where the later file replaces the earlier.
- Pipeline.ListStep: the listing is valid only for a directory listing that names every file on the card once. How `readdir` orders entries is left free.

## Findings

| source | as written | input that shows it | evidently intended | confidence | as-written member | corrected member |
|---|---|---|---|---|---|---|
| main/main.c:494-497 | with neither Wi-Fi connected nor the card mounted, the full buffer is sent to the empty queue, and its payload is overwritten by the next sample | flags with CONNECTED and MOUNTED clear, one full buffer | the comment: return it to the back of the full queue | high, not executed | Pipeline.RouterAsWrittenDropsPayload | Pipeline.RouterKeepsPayloads |
| main/main.c:506-512 | `i < uxQueueMessagesWaiting(...)` re-reads a count the body shrinks, so one pass drains only ⌈n/2⌉ stuck handles | a Wi-Fi queue of 2 handles with the link down: one handle stays | drain every stuck handle | high, not executed | Delivery.DrainAsWritten | Delivery.Drain |
| main/main.c:552-569 | `sd_list_files` returns −offset when the directory cannot be opened; stored in `uint8_t`, −1 becomes 255, so 255 rows of a 5-row matrix are queued and FILES_AVAILABLE is kept | opendir fails while one name is queued | a failed listing queues nothing | medium, not executed | Storage.ReadCountOverrun | Storage.ListForQueue |
| main/main.c:352-380 | the path array is 9 + 12 = 21 bytes and the 12 name bytes fill it, so the string passed to `fopen` has no terminator | any package timestamp from the RTC | a 22-byte array ending in NUL | high, not executed | Storage.PathAsWrittenUnterminated | Storage.PathNamesTheFile |

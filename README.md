# nezumi in Dafny

This project models nezumi, a daemon that reports the battery level of a
SteelSeries Aerox 9 mouse (wired or wireless) and follows the mouse as it is
unplugged and plugged back in. Four parts are modelled:

- **Battery protocol and driver registry** (`mouse.dfy`, module `Mouse`):
  - the decoding of one response byte into a reading;
  - the lookup from a configured model name to the Wired or Wireless driver;
  - the battery query of both drivers. A driver writes a two-byte request, reads a two-byte response into a zeroed buffer and decodes byte 1.
  - The HID device is a class whose answers come from queues. The query is a method on a `Mouse` class, proved equal to the pure function `QueryBattery`.
- **USB ids and hot-plug relevance** (`config.dfy`, `hotplug.dfy`):
  - the decoding of a four-hex-digit id into a big-endian `u16`, which configuration loading and udev attribute parsing share;
  - the check of whether a udev event announces a configured mouse, with its ordered error cases.
- **Device locator** (`locator.dfy`): `open_first_mouse`.
  - It is an imperative nested scan over the profile table and the enumerated HID interfaces.
  - It is proved against `ScanResult`, a recursive description with these rules: the first abort decides, otherwise the last profile with a match wins, otherwise nothing is found.
- **Reconnection loop** (`daemon.dfy`): `main`'s loop, modelled twice.
  - `Step`/`Run` is the flat state machine: Locating, Polling, Idle (the blank line and the monitor setup), Watching.
  - `DaemonLoop` follows the code's nesting through `PollLoop` and `WatchLoop`.
  - Lemmas prove the two equal.
  - The imperative `RunDaemon` (with `PollUntilFailure` and `Watch`) calls `OpenFirstMouse`, `Mouse.Battery` and `ProcessUdevEvent`. It is proved to print exactly the lines `DaemonLoop` predicts and to stop the same way.

The outside world is an input. `Env` holds what each creation of the HID
context gives, including the enumerated interfaces and how each will answer.
It also holds how each udev monitor setup goes and what each wait of the
watch loop yields: the timer, an event, a receive error or the end of the
stream. The loop runs until one of these finite streams runs dry (`OutOfInput`)
or the code returns an error (`Fatal`).

Bytes that are masked (the battery report) are `bv8`. Bytes that only take part
in arithmetic (hex text, id bytes) are the integer subtype `u8`. `u16` and
`i32` are bounded integer subtypes.

Points where the code's behaviour is easy to misread, as the model follows it:

- When the watch timer fires, the code ends the `while let` and goes back to locating a mouse. It does not keep watching.
- Percentages are not clamped to 0–100. Levels 22 to 126 give 105 % to 625 %, and only level 127 (630 %) is dropped.
- 0x0E is level 14, which decodes to 65 %; 60 % is 0x0D.
- A read timeout is not an error in the code. `read_timeout` then delivers no bytes, byte 1 of the zeroed buffer stays 0, and the reading is absent. So the loop keeps polling.
- The profile table is not "first match wins". Every profile is scanned, so the last profile with a matching interface wins, and an open or wrap error aborts the scan even after an earlier find.

## Model

| member | source | states |
|---|---|---|
| Mouse.DecodeResponse | src/mouse.rs:32-42 | This gives the meaning of `BatteryStatusFromResponse`. A response byte gives no reading exactly when its low seven bits are 0 or 127. Otherwise the percent is (level − 1) × 5, and the mouse charges exactly when bit 7 is set. |
| Mouse.NoReadingBytes | src/mouse.rs:33-35 | Exactly the bytes 0x00, 0x7F, 0x80 and 0xFF carry no reading. |
| Mouse.ReadingPercentRange | src/mouse.rs:33-36 | Every reading's percent is a multiple of 5 from 0 to 625, never the 630 sentinel, so it fits a `u16`. |
| Mouse.ChargingBitOnlyFlipsCharging | src/mouse.rs:33-39 | Toggling bit 7 never changes whether there is a reading or its percent; it flips only the charging flag. |
| Mouse.DecodeExamples | src/mouse.rs:32-42 | 0x0D is 60 % not charging and 0x8D is 60 % charging; 0x0E is 65 %, 0x01 is 0 % and 0x7E is 625 %; 0xFF has no reading. |
| Mouse.LookupModel | src/mouse.rs:12-18 | A registered name selects the driver registered under it. Any other name is an error carrying exactly that name, and no driver has that name. |
| Mouse.LookupModelName | src/mouse.rs:13-15 | Each driver's registered name selects that driver. |
| Mouse.BatteryRequest | src/mouse.rs:53-71 | A request is two bytes: a zero report id, then the request opcode. The wireless flag is set in byte 1 exactly for the wireless driver. |
| Mouse.BatteryRequestBytes | src/mouse.rs:27-30 | The wired request is 0x00 0x92 and the wireless request is 0x00 0xD2. |
| Mouse.QueryBattery | src/mouse.rs:51-58 | A write error is returned with no read. After a successful write, a read error is returned undecoded. A read that delivers at least two bytes gives the decoding of byte 1. A shorter read leaves byte 1 of the zeroed buffer at 0, which gives no reading. A reading is a multiple of 5 up to 625. A device with no answers left gives no reading. A query that uses an answer uses it up. |
| Mouse.ShortReadGivesNoReading | src/mouse.rs:55-58 | A read that delivers fewer than two bytes (a timeout delivers none) leaves byte 1 at zero, so there is no reading and no error. |
| Mouse.HidDevice.Write | src/mouse.rs:53 | A write either fails with the device's error and sends nothing, or sends the whole report and returns its length. |
| Mouse.HidDevice.ReadTimeout | src/mouse.rs:56 | A read either fails and leaves the buffer untouched, or copies as many report bytes as fit to the front of the buffer, returns their count and leaves the rest of the buffer as it was. |
| Mouse.Mouse.Battery | src/mouse.rs:51-77 | The result and the device's remaining answers are those of `QueryBattery`. The driver's request is sent exactly when the write succeeds. |
| Mouse.GetMouse | src/mouse.rs:12-18 | The result is a fresh driver of the selected kind around the given device, or the error carrying the unknown name. |
| Config.FromHexPairOfHexPair | src/main.rs:47 | Two bytes spelled as four hex digits decode back to the same two bytes. |
| Config.HexPairOfFromHexPair | src/main.rs:47 | Every text that decodes to two bytes is their hex spelling, up to letter case. |
| Config.DecodeId | src/main.rs:43-49 | An id decodes exactly when it is four hex digits, and its value is d0·4096 + d1·256 + d2·16 + d3. |
| Config.BeBytesRoundTrip | src/main.rs:48 | `FromBeBytes` and `ToBeBytes` are inverses: big-endian conversion between two bytes and a `u16` is a bijection, both ways. |
| Config.DecodeHexId | src/main.rs:43-49 | Writing an id as four hex digits and decoding it gives the id back. |
| Config.HexIdOfDecodeId | src/main.rs:43-49 | Every text that decodes spells the id it decodes to, up to letter case. |
| Hotplug.ParseIdAttribute | src/main.rs:88-95 | The UTF-8 check (`ToStr`, standing for `to_str`) followed by hex decoding decides the same as hex decoding alone, because hex digits are ASCII. |
| Hotplug.AnyProfileMatches | src/main.rs:104-110 | The search succeeds exactly when some profile has the vendor id and the product id. |
| Hotplug.ProcessUdevEvent | src/main.rs:82-113 | A non-bind event is irrelevant. MissingVendor, InvalidVendor, MissingProduct and InvalidProduct each occur exactly in their own case, vendor before product and presence before format. An event is relevant exactly when it is a bind event whose well-formed ids equal those of some profile. |
| Hotplug.EndpointIgnored | src/main.rs:104-110 | Tables that agree on vendor and product ids give every event the same verdict, whatever their endpoints. |
| Hotplug.VendorCheckedFirst | src/main.rs:86-103 | A vendor-id error stays the result whatever the product attribute is. |
| Locator.OpenDevice | src/main.rs:63 | Opening either fails with the interface's error or gives a fresh handle with the interface's answers and nothing sent. |
| Locator.FirstMatch | src/main.rs:57-61 | The result is the first interface that matches (`Matches`: vendor, product and interface number all agree), or nothing when none does. |
| Locator.Attempt | src/main.rs:57-67 | A profile's scan finds nothing exactly when no interface matches it. Otherwise its first match decides the outcome. If that interface fails to open, the error is `OpenMouse` carrying the open error, whatever the model name. If it opens, the scan succeeds at that interface when the model name is registered, and otherwise fails with `WrapMouse` carrying the name. An error is never NotFound. |
| Locator.ScanResult | src/main.rs:51-71 | A found mouse names a profile whose scan succeeded at that interface. |
| Locator.ScanNotFound | src/main.rs:55-70 | NotFound is returned exactly when no (profile, interface) pair matches. |
| Locator.ScanAborts | src/main.rs:63-64 | The first profile whose scan fails decides the error, even when an earlier profile found a mouse. |
| Locator.ScanFindsLast | src/main.rs:55-70 | With no scan failing, the result is the last profile with a matching interface, together with that profile's first match. |
| Locator.ScanFoundIsLast | src/main.rs:55-70 | Conversely, a found mouse comes from the last profile with a match, and no scan failed. |
| Locator.ScanErrorCause | src/main.rs:63-64 | Every error other than NotFound is the failure of some profile's scan. |
| Locator.OpenFirstMouse | src/main.rs:51-71 | It fails exactly when `ScanResult` does, with the same error. Otherwise the mouse is fresh, has the driver the chosen profile's model selects, and holds a fresh handle on the chosen interface. |
| Daemon.ParseDecimalOfDecimal | src/main.rs:160-164 | Reading back the decimal rendering of a percent gives the percent. |
| Daemon.StatusLineRoundTrip | src/main.rs:160-164 | `StatusLine` renders the `println!` format, and a status line tells exactly whether the mouse charges and its percent. |
| Daemon.Step | src/main.rs:147-212 | Every transition that does not end the run uses up input: a creation of the HID context, or else a monitor setup, a wait or a device answer. A transition that ends the run may leave the input as it was. |
| Daemon.LocateStep | src/main.rs:149-181 | Locating prints nothing and uses up one creation of the HID context when one is left. It goes to Polling exactly when the HID context is created and a mouse is found, and then polls the driver and the device that the scan chose. It stops with `Fatal(InitializeHidApi(e))` when the context cannot be created, and with `OutOfInput` when no creation is left. |
| Daemon.PollStep | src/main.rs:155-178 | Polling prints at most one line: the status line of a reading with a percent a response can carry. A reading prints its own status line and keeps polling the same driver on the answers left. A missing reading prints nothing and keeps polling. A device error goes to Idle with nothing printed. |
| Daemon.IdleStep | src/main.rs:183-193 | Leaving Locating or Polling prints one blank line. Watching follows exactly when the monitor is built. A failed setup step ends the run with that step's error (`MonitorError`: both of the first two steps give `UdevBuildMonitor`). |
| Daemon.WatchStep | src/main.rs:197-211 | Watching prints nothing. It returns to Locating on a relevant event, the timer or the end of the stream, and keeps watching on a receive error or any other event. |
| Daemon.RunPrintsOnlyStatusOrBlank | src/main.rs:162-184 | Every line the daemon prints is blank or a status line whose percent is a multiple of 5 up to 625. |
| Daemon.PollFailurePrintsBlank | src/main.rs:168-184 | A device error while polling is followed at once by the blank line. |
| Daemon.ScenarioReadingThenFailure | src/main.rs:147-212 | With one wired profile (vendor 0x1038, product 0x1836, interface 0) and a device that answers 0x0D and then fails, the daemon prints "\u{f8cc} 60%" and then the blank line. |
| Daemon.PollLoop | src/main.rs:155-178 | A device with no answers left prints nothing and runs out of answers. The loop prints at most one line per read answer, because a read with no scripted answer delivers no bytes and so no reading. |
| Daemon.PollLoopPrintsReadings | src/main.rs:158-166 | Every line the poll loop prints is a non-blank status line whose percent is a multiple of 5 up to 625. |
| Daemon.WatchLoop | src/main.rs:197-211 | Watching leaves the pending HID context creations alone, and it ends the run only when its input runs out, never with an error. |
| Daemon.RunPollingIsPollLoop | src/main.rs:155-178 | Under the state machine, Polling prints what the poll loop prints. It then goes to Idle unless the device's answers run out. |
| Daemon.RunWatchingIsWatchLoop | src/main.rs:197-211 | Under the state machine, Watching ends where the watch loop does. |
| Daemon.RunIsDaemonLoop | src/main.rs:147-212 | The flat state machine (`Run`) and the nested loops of the code (`DaemonLoop`) print the same lines and end the same way. |
| Daemon.PollUntilFailure | src/main.rs:155-178 | The poll loop prints one status line per reading until the device fails, and reports whether the device's answers ran out. |
| Daemon.Watch | src/main.rs:197-211 | The watch loop gives the world left when it stops watching, or why the run ends, as `WatchLoop` describes. |
| Daemon.RunDaemon | src/main.rs:147-212 | The daemon prints exactly the lines `DaemonLoop` predicts and stops the same way. By `RunIsDaemonLoop`, that is also what the state machine `Run` predicts. |

## Left out

- Command-line parsing, logger setup, and reading and parsing the configuration file (src/main.rs:129-140) are I/O around the core. The profile table is given as an ordered sequence of (name, profile) pairs, standing for the `LinkedHashMap`. `deserialize_id`'s decoding is modelled by `Config.DecodeId`; the table holds the decoded ids.
- Timing is not modelled: the poll interval, the resets of the `sleep` timer and the 200 ms read timeout. Each wait of the watch loop is an explicit input, and a poll happens on every tick.
- The `select!` race between the timer and the event stream is resolved by the input: each wait says which side won.
- hidapi's internals are replaced by inputs. These are `HidApi::new`, `device_list`, `open_device` and the device's answers to `write` and `read_timeout`. A device with no scripted answers left accepts writes and delivers no bytes.
- The udev monitor's construction is an input that names the first failing step, if any. Both of the first two steps are reported as `UdevBuildMonitor`, as in the code.
- The loop never ends in the code; here it ends when an input stream runs out (`OutOfInput`).
- Logging (`info!`, `warn!`, `error!`) and the error messages' `Display` texts are left out. Only the error variants are modelled.
- `Mouse.HidDevice.ReadTimeout`: the byte count it returns is modelled, but the decoder, like the code, ignores it.
- Releasing the device handle and the monitor socket at the end of each round is not modelled; there is no resource model.
- `OsStr::to_str` is modelled as a UTF-8 validity check on the attribute bytes.

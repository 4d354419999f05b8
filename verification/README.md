# PicoJoy descriptor and report model

A Dafny model of the PicoJoy firmware. The firmware runs on an RP2040 and
enumerates as a composite USB device: a HID joystick (32 buttons, four 16-bit
axes) plus a CDC serial control interface. The model covers four parts:

- **Product-ID bitmap** (`USB_PID`). One bit per optional TinyUSB class driver is
  OR-ed into 0x4000. This gives every combination of compiled-in interfaces
  its own VID/PID pair.
- **String descriptors.** `str_to_descr_str` turns an ASCII string into a USB
  string descriptor (section 9.6.7 of the USB 2.0 specification) inside a
  static 32-unit buffer. `tud_descriptor_string_cb` maps string indices 0–4
  to descriptors and answers NULL for every other index. The buffer is
  static, so whatever a reply does not overwrite is kept from the previous
  call. The model passes the buffer in and out explicitly.
- **Descriptors.** The device descriptor, the configuration descriptor (one
  CDC function and one HID function) and the HID report descriptor. The
  report descriptor is kept as its list of short items. An interpreter
  follows the global/local item semantics of section 6.2.2 of the HID 1.11
  Device Class Definition and yields the input fields a host sees.
- **Report publisher** (`hid_task`). A single `uint32_t` timestamp
  `start_ms` is compared with the clock using wrapping subtraction. It
  advances by exactly 1 ms on every due call, and each due call refreshes
  the 12-byte `struct report`. The report is submitted as instance 0 with
  report ID 1 only when the transport is ready; otherwise it is dropped.

Inputs from outside the firmware are parameters:

- the clock: one `now` sample per `hid_task` call;
- transport readiness: a boolean;
- the board serial string: a string;
- the TinyUSB build flags: a `BuildConfig` record (tusb_config.h is not part
  of this model).

Behaviour kept exactly as written:

- **LANGID word.** The language word at index 0 is 0x0904 (see Findings).
- **HID interface string.** The configuration gives the HID interface string
  index 5, but the string callback has no case for 5 and answers NULL.
- **String length.** `strlen` is stored in a `uint8_t`, so the length is taken
  mod 256. A 256-character source therefore encodes as the empty string.
- **Missing return value.** `str_to_descr_str` is declared to return a value
  but never does. The model returns only the buffer.
- **Configuration index.** `tud_descriptor_configuration_cb` ignores its
  index and returns the one configuration for every index. This follows the
  code, which does not fail for other indices.
- **Character width.** `char` is unsigned on the ARM target, so source
  characters are zero-extended to 16 bits.

## Model

| member | source | states |
|---|---|---|
| CTypes.Sub32 | src/main.c:16 | `now - start_ms` on `uint32_t` is the difference reduced mod 2^32, and adding `start_ms` back (also mod 2^32) gives `now` |
| CTypes.Add32 | src/main.c:18 | `start_ms += interval_ms` is the sum reduced mod 2^32 |
| CTypes.ToInt16 | src/main.c:24 | the store into an `int16_t` keeps the value when it is below 0x8000, and always agrees with it mod 2^16 |
| ProductId.PidMap | src/usb_descriptors.c:10 | `_PID_MAP` shifts a flag to bit n without losing bits (it stays below 0x2000); a flag of 1 becomes exactly bit n and a flag of 0 contributes nothing |
| ProductId.ProductIdOf | src/usb_descriptors.c:10-12 | when each interface flag is 0 or 1, the product ID is 0x4000 plus flag bits 0–4 (CDC, MSC, HID, MIDI, vendor), so it lies in 0x4000..0x401F |
| ProductId.InterfacesOf | src/usb_descriptors.c:7-12 | reading the bitmap back succeeds exactly for IDs in 0x4000..0x401F and always gives 0/1 flags |
| ProductId.DecodeSum | src/usb_descriptors.c:10-12 | for 0/1 flags, the bitmap sum 0x4000 + cdc + 2·msc + 4·hid + 8·midi + 16·vendor is a 16-bit value that reads back to the same flags |
| ProductId.EncodeSum | src/usb_descriptors.c:10-12 | every ID in 0x4000..0x401F is the bitmap sum of the flags read from it |
| ProductId.DecodeProductId | src/usb_descriptors.c:10-12 | decoding the ID of any 0/1 interface set gives that set back |
| ProductId.EncodeInterfaces | src/usb_descriptors.c:10-12 | every ID in 0x4000..0x401F is the ID of the set it decodes to, so the bitmap is onto the range |
| ProductId.ProductIdInjective | src/usb_descriptors.c:4-12 | two 0/1 interface sets have the same product ID if and only if they are equal |
| ProductId.CountsAboveOneCollide | src/usb_descriptors.c:10-12 | the bitmap needs 0/1 flags: two CDC instances give the same ID as one mass-storage instance |
| StringDescriptors.StrLen | src/usb_descriptors.c:122 | `strlen` counts the characters before the first NUL |
| StringDescriptors.EncodedLen | src/usb_descriptors.c:122-124 | the copied length is below `maxlen` and at most `strlen`. It equals `strlen` when the string fits, and `maxlen - 1` when `maxlen <= strlen < 256` |
| StringDescriptors.BitOr | src/usb_descriptors.c:132 | bitwise OR of non-negative ints never exceeds their sum |
| StringDescriptors.Header | src/usb_descriptors.c:131-132 | for lengths up to 126 the header's low byte is the byte length `2*len + 2` and its high byte is descriptor type 3 |
| StringDescriptors.Widen | src/usb_descriptors.c:127-130 | a source byte is zero-extended into one 16-bit unit |
| StringDescriptors.Encode | src/usb_descriptors.c:120-133 | the encoder writes `len + 1 <= maxlen` units, so it never writes past `dest[maxlen-1]` |
| StringDescriptors.Write | src/usb_descriptors.c:120-133 | after the call `dest[0]` is the header and `dest[i+1]` is `src[i]` for every `i < len`. Every entry past `len` is unchanged |
| StringDescriptors.StrToDescrStr | src/usb_descriptors.c:120-133 | the copy loop followed by the header store leaves exactly the buffer `Write` describes |
| StringDescriptors.DecodeWrite | src/usb_descriptors.c:120-133 | round trip: decoding the written buffer gives the first `len` source characters, whatever the buffer held before |
| StringDescriptors.EncodeShortString | src/usb_descriptors.c:122-130 | a source shorter than `maxlen` comes back whole, in a descriptor of `2*strlen + 2` bytes |
| StringDescriptors.EncodeTruncates | src/usb_descriptors.c:122-124 | a source of at least `maxlen` and fewer than 256 characters is cut to `maxlen - 1` characters, in exactly `2*(maxlen-1) + 2 <= 2*maxlen` bytes |
| StringDescriptors.LongSourceWraps | src/usb_descriptors.c:122 | because `len` is a `uint8_t`, a 256-character source gives the empty string |
| StringDescriptors.LanguageTable | src/usb_descriptors.c:143-149 | index 0 writes header 0x0304 and one language word, and leaves the rest of the buffer alone |
| StringDescriptors.StringCallback | src/usb_descriptors.c:135-171 | the reply is non-NULL if and only if the index is at most 4. A NULL reply leaves the buffer unchanged. A non-NULL reply returns the buffer itself, has a byte length in 2..64, and leaves every entry past the declared length unchanged |
| StringDescriptors.StringSource | src/usb_descriptors.c:141-165 | the switch picks a source string for indices 1 to 4 only (manufacturer, product, serial, CDC interface), and every source is a byte string |
| StringDescriptors.WriteReply | src/usb_descriptors.c:150-164 | one string case yields a buffer of 2..64 bytes with everything past its length unchanged |
| StringDescriptors.LanguageDescriptor | src/usb_descriptors.c:143-149 | index 0 yields the words 0x0304, 0x0904 |
| StringDescriptors.EncodeWholeString | src/usb_descriptors.c:120-133 | a NUL-free byte string of at most 31 characters decodes back whole from its reply |
| StringDescriptors.FixedDescriptor | src/usb_descriptors.c:150-165 | an index whose source is a fixed string of at most 31 characters decodes to that string |
| StringDescriptors.ManufacturerDescriptor | src/usb_descriptors.c:150-152 | index 1 decodes to "HasseHans Fabrik" |
| StringDescriptors.ProductDescriptor | src/usb_descriptors.c:153-155 | index 2 decodes to "PicoJoy" |
| StringDescriptors.SerialDescriptor | src/usb_descriptors.c:156-162 | index 3 decodes to the board serial, cut to 31 characters |
| StringDescriptors.CdcInterfaceDescriptor | src/usb_descriptors.c:163-165 | index 4 decodes to "PicoJoy Serial Control" |
| StringDescriptors.LanguageWordSwapped | src/usb_descriptors.c:145 | as written, the language word is not 0x0409 but its byte-swapped form |
| StringDescriptors.StringCallbackIntended | src/usb_descriptors.c:145 | with 0x0409 at index 0 the callback announces English (US), and at every other index it agrees with the code as written |
| HidReportDescriptor.SignedValue | src/usb_descriptors.c:65-66 | Logical Minimum/Maximum data is a two's-complement number of the item's size: 0x8001 in two bytes is −32767 |
| HidReportDescriptor.UsageRange | src/usb_descriptors.c:56-57 | Usage Minimum 1 and Usage Maximum 32 stand for usages 1 to 32, one per entry |
| HidReportDescriptor.Step | src/usb_descriptors.c:49-75 | only an Input item adds a field, and that field carries the current Report Count, Report Size and Report ID. Every main item clears the local state |
| HidReportDescriptor.Run | src/usb_descriptors.c:49-75 | parsing only appends fields, one per Input item |
| HidReportDescriptor.RunAppend | src/usb_descriptors.c:49-75 | parsing a concatenation is parsing its parts in turn |
| HidReportDescriptor.RunSteps | src/usb_descriptors.c:49-75 | a chain of successful item steps is a successful parse of the whole item list, ending in the chain's last state |
| HidReportDescriptor.Parse | src/usb_descriptors.c:49-75 | a successful parse yields one field per Input item |
| HidReportDescriptor.HeaderBlock | src/usb_descriptors.c:51-54 | the header opens one application collection and selects report ID 1 on the Generic Desktop page |
| HidReportDescriptor.ButtonBlock | src/usb_descriptors.c:55-62 | the button items append one field of 32 one-bit entries, Button usages 1–32, logical range 0..1, report ID 1 |
| HidReportDescriptor.AxisBlock | src/usb_descriptors.c:64-73 | the axis items append one field of four 16-bit entries, usages X, Y, Z and Slider, logical range −32767..32767 |
| HidReportDescriptor.ReportDescriptorFields | src/usb_descriptors.c:49-75 | the descriptor declares exactly the button field and then the axis field, and its collection is closed |
| DeviceConfig.DeviceCallback | src/usb_descriptors.c:19-43 | the device descriptor is 18 bytes of type 1, USB 2.0, vendor 0xCAFE, one configuration. Its product ID decodes to the compiled-in interface set |
| DeviceConfig.CdcHidProductId | src/usb_descriptors.c:10-12 | a build that matches the configuration descriptor (CDC and HID once each) has its product ID decode to its interface set, with the CDC bit 0 and HID bit 2 set. With no other class driver the ID is 0x4005 |
| DeviceConfig.ReportDescriptorCallback | src/usb_descriptors.c:77-81 | every interface number gets a report descriptor that parses to the button and axis fields |
| DeviceConfig.DescConfiguration | src/usb_descriptors.c:98-108 | `desc_configuration` lists the CDC function, on interfaces 1 and 2 with endpoints 0x82, 0x02, 0x83, and then the HID function, on interface 0 with endpoint 0x81 |
| DeviceConfig.ConfigurationCallback | src/usb_descriptors.c:83-114 | for any index: configuration value 1 with 3 interfaces. Interface numbers are exactly 0..2, each used once, and no endpoint address repeats. The HID endpoint is IN with a 10 ms interval |
| DeviceConfig.ConfigurationIgnoresIndex | src/usb_descriptors.c:110-114 | every configuration index gets the same descriptor |
| DeviceConfig.HidFunctionReport | src/usb_descriptors.c:106-107 | the HID function carries the report descriptor the report callback returns |
| DeviceConfig.DeviceStringsResolve | src/usb_descriptors.c:33-35 | the manufacturer, product and serial string indices of the device descriptor decode to the manufacturer name, the product name and the board serial |
| DeviceConfig.InterfaceStrings | src/usb_descriptors.c:104-107 | the CDC interface's string index 4 decodes to its name. The HID interface's string index 5 gets NULL |
| HidTask.Due | src/main.c:16 | while `start_ms <= now`, the wrapping test is the plain `now - start_ms >= 1`; once the clock has wrapped behind `start_ms`, the call is always due |
| HidTask.DueIffClockMoved | src/main.c:13-17 | with a 1 ms interval a call is due exactly when `now != start_ms`, also across the wrap |
| HidTask.ButtonBits | src/main.c:20 | the shifted value never reaches bit 16, and it is 0 exactly in even seconds |
| HidTask.ButtonPattern | src/main.c:20 | `buttons` is 0 or a single bit at a position in 0..15. Bit k is set if and only if the second is odd and k is the two-second period mod 16 |
| HidTask.SliderValue | src/main.c:22-25 | each slider lies in 0..32767 and agrees with `now` mod 0x8000 |
| HidTask.Sample | src/main.c:20-25 | the refreshed report has four sliders, all equal to the slider value, and the button bits of `now` |
| HidTask.Task | src/main.c:10-31 | a call that is not due changes nothing and sends nothing. A due call advances `start_ms` by 1 (mod 2^32), which shortens the lag by exactly one, and refreshes the report. It sends (instance 0, ID 1, 12 bytes) if and only if it is due and the transport is ready. `start_ms <= now` is kept |
| HidTask.RunStart | src/main.c:14-18 | over any sequence of calls, the publisher's `start_ms` is the `start_ms`-only projection: a call advances it by 1 exactly when it is due |
| HidTask.StartAfterCounts | src/main.c:14-18 | that projection ends at the start value plus the number of due calls, mod 2^32 |
| HidTask.StartAfterBounded | src/main.c:16-18 | with a clock that never decreases and `start_ms` not ahead of it, `start_ms` never passes the last clock sample and grows by exactly the number of due calls |
| HidTask.StartCountsEmissions | src/main.c:14-18 | after any sequence of calls, `start_ms` equals its start value plus the number of due calls, mod 2^32 |
| HidTask.StartFromPowerOn | src/main.c:14-18 | from power-on, after k due calls `start_ms = k mod 2^32` |
| HidTask.AtMostOnePerMillisecond | src/main.c:16-18 | with a clock that never decreases, `start_ms` ends at or below the last clock sample, has grown by exactly the number of reports produced, and that number never exceeds the milliseconds elapsed |
| HidTask.AdvanceLag | src/main.c:16-18 | a due call shortens the wrapping lag `now - start_ms` by exactly one; a call that is not due has lag 0 and leaves `start_ms` alone |
| HidTask.CatchUp | src/main.c:16-18 | n calls at one instant produce min(n, lag) reports, where the lag is the wrapping difference `now - start_ms`, so also when `start_ms` is ahead of a wrapped clock: the cadence catches up instead of resetting |
| HidTask.SentAtMostEmitted | src/main.c:27-30 | no more reports are submitted than were produced |
| HidTask.SentAreFresh | src/main.c:18-30 | every submitted report is the sample of a call made while the transport was ready |
| HidTask.NoBacklog | src/main.c:27-30 | a dropped report leaves the same state as a sent one, and what a due call sends depends only on the current instant |
| HidTask.PowerOnScenario | src/main.c:10-30 | at t = 0 nothing is sent. At t = 1 with the transport ready, one 12-byte report with ID 1 is sent, with no button pressed and all sliders 1 |
| HidTask.GetReportCallback | src/main.c:38-42 | get-report answers length 0 and writes nothing |
| HidTask.SetReportCallback | src/main.c:33-36 | set-report changes no state |
| LayoutAgreement.DeclaredFields | src/usb_descriptors.c:77-81 | the report callback's descriptor parses to two input fields |
| LayoutAgreement.ReportSizeMatchesStruct | src/main.c:4-8 | the declared input bits for report ID 1 are 32×1 + 4×16 = 96, which is `8 * sizeof(struct report)` |
| LayoutAgreement.FieldsMatchMembers | src/main.c:4-8 | the button field fills the 32-bit `buttons` member. The axis field has one 16-bit entry per slider. Each field names one usage per entry and uses report ID 1 |
| LayoutAgreement.SlidersWithinLogicalRange | src/usb_descriptors.c:65-66 | every slider value the publisher produces lies in the declared logical range −32767..32767 |
| LayoutAgreement.ButtonsWithinUsages | src/usb_descriptors.c:56-57 | whatever bit of `buttons` the publisher sets lies below 16, and it is always one of the declared usages Button 1..32 (bit k is Button k + 1) |

## Findings

| source | as written | input that shows it | evidently intended | confidence | as-written member | corrected member |
|---|---|---|---|---|---|---|
| src/usb_descriptors.c:145 | the supported-language word is 0x0904 | string index 0 | 0x0409, English (United States), as the comment says | high, not executed | StringDescriptors.LanguageWordSwapped | StringDescriptors.StringCallbackIntended |

`StringDescriptors.StringCallback` keeps the code as written. The string lemmas in `DeviceConfig` query indices 1–5 only, and there the corrected callback gives the same result (its contract says so).

## Left out

- TinyUSB internals (`tud_task`, `tusb_init`, `tud_hid_ready`, `tud_hid_n_report`) are foreign calls. Readiness is a boolean input and a submission is an output value.
- The byte-level expansion of the `TUD_*_DESCRIPTOR` and `HID_*` macros and the `TUD_*_DESC_LEN` constants is left out: they are defined in TinyUSB headers that are not part of this model. The configuration descriptor's total length (`CONFIG_TOTAL_LEN`) and `sizeof(desc_hid_report)` are therefore left out too. The HID function carries the item list itself instead of its byte length.
- The `CFG_TUD_*` values, `CFG_TUD_ENDPOINT0_SIZE` and `CFG_TUD_HID_EP_BUFSIZE` come from tusb_config.h, which is not part of this model. They are a `BuildConfig` parameter.
- `pico_get_unique_board_id_string` is a platform call. The serial is an arbitrary byte string.
- `board_millis` is a platform call. Time is a `uint32_t` input. `hid_task` reads the clock several times; the model samples it once per call, so a millisecond tick in the middle of one call is not modelled.
- `main`'s infinite loop, `board_init` and the CDC data path are left out: they are platform and stack glue.
- The memory layout and endianness of `struct report` beyond its total size are left out.
- StringDescriptors.StrToDescrStr: requires `maxlen >= 1`. With `maxlen == 0` the C code computes `len = 255` and reads past the source string, which is undefined behaviour; every caller passes 32.
- StringDescriptors.Write: requires every source character to fit in one byte, as a C `char` does.
- StringDescriptors.Header: states the length and type bytes only for lengths up to 126. Above that, `2*len + 2` spills into the type byte; callers never get there with a 32-unit buffer.
- StringDescriptors.DecodeWrite: stated for `maxlen <= 127` only, for the same reason.
- HidTask.AtMostOnePerMillisecond: assumes a clock that never decreases and does not wrap during the run. Across a wrap only `StartCountsEmissions` and `Task` are stated.
- HidTask.StartAfterBounded: makes the same assumption, for the same reason.

# USB device quirk detection, modelled in Dafny

This project models the quirk engine of the Linux USB core (`drivers/usb/core/quirks.c`).
When a device enumerates, the engine classifies it against two static rule tables:

- `usb_quirk_list` holds device rules. It is scanned right after the device descriptor is read.
- `usb_interface_quirk_list` holds interface rules. It is scanned once every configuration descriptor has been read.

Each table is a sequence of `struct usb_device_id` rows that ends in an all-zero entry.
A row applies when the device matcher accepts it.
A row flagged INT_INFO applies only if, in addition, some interface of some configuration matches it.
Only alternate setting 0 of each interface is examined, and interfaces without alternate settings are skipped.
The scan ORs together the `driver_info` of every applying row, truncated to 32 bits.

The two passes then update the device:

- The device pass replaces `quirks` with the device-table result. It sets `persist_enabled` unless the result holds a RESET_MORPHS bit.
- The interface pass ORs the interface-table result into `quirks` and never touches `persist_enabled`.

The modules follow the program's structure:

- `QuirkFlags` (`quirk_flags.dfy`) holds the `u32` mask, the `(u32)` cast of `driver_info` and the subset order on masks. It also holds the named quirks, whose numeric values are a parameter `k: QuirkBits`.
- `Descriptors` (`descriptors.dfy`) holds the device → configuration → interface cache → alternate setting tree, following section 9.6 of the USB 2.0 specification. It also holds the two fields the engine writes.
- `DeviceIds` (`device_ids.dfy`) holds rule rows, with `match_flags` as a set of named bits. It also holds the `USB_DEVICE` and `USB_VENDOR_AND_INTERFACE_INFO` row shapes and the abstract matcher pair `Matcher`.
- `InterfaceSearch` (`interface_search.dfy`) holds `usb_match_any_interface`.
- `Scan` (`scan.dfy`) holds `__usb_detect_quirks`. It is both a recursive function and the source's cursor loop, and the two are proved equal.
- `QuirkTables` (`quirk_tables.dfy`) holds both tables, row for row in source order.
- `Detect` (`detect.dfy`) holds `usb_detect_quirks` and `usb_detect_interface_quirks`, and what the two passes give together.
- `FieldMatch` (`field_match.dfy`) holds a field-by-field stand-in for the two matchers. It is used only by `Scenarios`.
- `Scenarios` (`scenarios.dfy`) holds what the tables give particular devices.

The per-row matchers `usb_match_device` and `usb_match_one_id_intf` are defined outside `quirks.c`.
Every property in `InterfaceSearch`, `Scan` and `Detect` is therefore proved for an arbitrary matcher.
A matcher is passed as a parameter and sees only the device descriptor and one interface descriptor.
Only `Scenarios` fixes the stand-in `FieldMatch.FieldMatcher`.

## Model

| member | source | states |
|---|---|---|
| QuirkFlags.Truncate | drivers/usb/core/quirks.c:216 | The `(u32)` cast carries each of the 32 low bits of the 64-bit `driver_info` word into the mask unchanged, and drops the high word. |
| QuirkFlags.TruncateKeepsLowWord | drivers/usb/core/quirks.c:216 | A 32-bit quirk mask stored in `driver_info` casts back to itself, whatever the high word holds. |
| DeviceIds.DeviceEntryShape | drivers/usb/core/quirks.c:36-160 | A `USB_DEVICE` row is not a terminator and not an INT_INFO row, and its `driver_info` casts back to the quirk it was written with. |
| DeviceIds.VendorInterfaceEntryShape | drivers/usb/core/quirks.c:167-168 | A `USB_VENDOR_AND_INTERFACE_INFO` row is an INT_INFO row and not a terminator, and its `driver_info` casts back to its quirk. |
| QuirkTables.DeviceQuirkListActive | drivers/usb/core/quirks.c:34-163 | The device table is terminated. The scan examines exactly its 39 data rows, and none of them is an INT_INFO row, so the device pass never searches interfaces. |
| QuirkTables.InterfaceQuirkListActive | drivers/usb/core/quirks.c:165-175 | The interface table is terminated and the scan examines exactly its two data rows. The Logitech UVC row is INT_INFO and the ASUS row is not. |
| InterfaceSearch.SearchInterfaces | drivers/usb/core/quirks.c:186-197 | The inner loop returns true iff some interface index from `j` up to `bNumInterfaces` has an alternate setting 0 that matches. |
| InterfaceSearch.SearchConfigs | drivers/usb/core/quirks.c:182-198 | The outer loop returns true iff some configuration from `i` on has such an interface. |
| InterfaceSearch.MatchAnyInterface | drivers/usb/core/quirks.c:177-201 | True iff some configuration below `bNumConfigurations` has some interface below `bNumInterfaces` with a non-empty cache whose alternate setting 0 matches. False when there are no configurations. |
| InterfaceSearch.SearchReadsOnlyFirstAltsetting | drivers/usb/core/quirks.c:190-195 | Two interface matchers that agree on alternate setting 0 of every non-empty cache give the same answer, so empty caches and other alternate settings are never consulted. |
| InterfaceSearch.LaterAltsettingsIrrelevant | drivers/usb/core/quirks.c:194 | Replacing all alternate settings after index 0 of any interface leaves the answer unchanged. |
| Scan.Active | drivers/usb/core/quirks.c:208 | The rows the scan examines are a proper prefix of the table. That prefix is followed by a terminating entry and contains none. |
| Scan.ContributionOfRow | drivers/usb/core/quirks.c:209-216 | One iteration adds the truncated `driver_info` of a row exactly when the device match passes and, for an INT_INFO row, some interface matches. Otherwise it adds nothing. |
| Scan.DetectQuirks | drivers/usb/core/quirks.c:203-220 | The recursive scan equals the left-to-right accumulation of the contributions of the examined rows. |
| Scan.DetectQuirksLoop | drivers/usb/core/quirks.c:203-220 | The source's cursor loop, with an accumulator starting at 0 and `continue` on a failed match, computes the same mask as the recursive scan. |
| Scan.DetectQuirksIsLeastUnion | drivers/usb/core/quirks.c:203-220 | The result is the union of the truncated `driver_info` of every matching examined row. Each such row's bits are in it, and it lies inside any mask that holds all of them. |
| Scan.MatchingRowInResult | drivers/usb/core/quirks.c:216 | A matching examined row's bits are in the result. |
| Scan.DetectQuirksSingleValue | drivers/usb/core/quirks.c:206-216 | If some examined row matches and every matching row carries the same bits `x`, the result is exactly `x`, so duplicate rows collapse. |
| Scan.AccumulatorGrows | drivers/usb/core/quirks.c:206-216 | The accumulator after `i` iterations is contained in its value after any later iteration and in the final result. |
| Scan.DetectQuirksOrderIndependent | drivers/usb/core/quirks.c:206-216 | Two tables whose examined rows are the same set of rows, in any order and with any repetition, give the same result. |
| Scan.ActiveUpToTerminator | drivers/usb/core/quirks.c:208 | A run of non-terminating rows followed by a terminating entry is examined in full, and nothing after the terminator is examined. |
| Scan.RowsAfterTerminatorIgnored | drivers/usb/core/quirks.c:208 | Replacing everything after the first terminating entry leaves the result unchanged. |
| Scan.TerminatorOnlyTableIsEmpty | drivers/usb/core/quirks.c:206-208 | A table holding only the terminating entry gives 0 for every device. |
| Scan.UnionOfDescriptorOnly | drivers/usb/core/quirks.c:209-214 | Rows that are not INT_INFO consult only the device descriptor: two trees with the same device descriptor give the same union, whether or not their configuration descriptors have been read. |
| Scan.InterfaceSearchOnlyAfterDeviceMatch | drivers/usb/core/quirks.c:209-214 | The interface search is consulted only for INT_INFO rows whose device match passed. Interface matchers that agree on those rows give equal results, and need configuration data only there. |
| Scan.TwoScansUpper | drivers/usb/core/quirks.c:222-252 | Two scans ORed together hold the bits of every matching examined row of either table. |
| Scan.TwoScansLeast | drivers/usb/core/quirks.c:222-252 | Two scans ORed together lie inside any mask holding the bits of every matching examined row of either table. |
| Detect.DetectDeviceQuirks | drivers/usb/core/quirks.c:222-239 | The device pass keeps the descriptors and replaces `quirks` with the device-table result. It sets `persist_enabled` when no RESET_MORPHS bit is present and leaves it unchanged otherwise. |
| Detect.OrQuirks | drivers/usb/core/quirks.c:246-251 | A zero result leaves the device as it was. Otherwise the result is ORed into `quirks` and the descriptors and `persist_enabled` are kept. |
| Detect.OrQuirksKeeps | drivers/usb/core/quirks.c:251 | The OR update keeps the old quirks and the new result. |
| Detect.DetectInterfaceQuirks | drivers/usb/core/quirks.c:241-252 | The interface pass ORs the interface-table result into `quirks` and leaves `persist_enabled` and the descriptors alone. With a zero result the device is unchanged. |
| Detect.DevicePassReplacesQuirks | drivers/usb/core/quirks.c:224 | The old quirks are not read: devices with the same descriptors get the same quirks from the device pass. |
| Detect.DevicePassIgnoresOldQuirks | drivers/usb/core/quirks.c:224-237 | Devices with the same descriptors and `persist_enabled` end in the same state, whatever their old quirks. |
| Detect.DevicePassNeverClearsPersist | drivers/usb/core/quirks.c:236-237 | `persist_enabled` is never cleared by the device pass. |
| Detect.DevicePassIdempotent | drivers/usb/core/quirks.c:222-239 | Running the device pass twice gives the same state as running it once. |
| Detect.InterfacePassNeverClears | drivers/usb/core/quirks.c:251 | After the interface pass, `quirks` still holds every bit it held before, plus the interface-table result. |
| Detect.InterfacePassIdempotent | drivers/usb/core/quirks.c:241-252 | Running the interface pass twice gives the same state as running it once. |
| Detect.DevicePassDescriptorOnly | drivers/usb/core/quirks.c:18-21 | The device pass reads only the device descriptor: trees that agree on it give the same device-table result, so it may run before the configuration descriptors are read. |
| Detect.Enumerate | drivers/usb/core/quirks.c:18-24 | Enumeration in the core's order: the device pass on the device as first read, then the parsed configuration tree, then the interface pass. The device ends with the parsed tree and the `persist_enabled` the device pass left. |
| Detect.EnumerationQuirksAreBothTables | drivers/usb/core/quirks.c:18-24 | After enumeration, `quirks` is the device-table result ORed with the interface-table result, both taken on the parsed tree, although the device pass ran before any configuration descriptor was read. |
| Detect.EnumerationQuirksHoldEveryMatchingRow | drivers/usb/core/quirks.c:222-252 | After enumeration, every data row of either table that matches the parsed device has its truncated `driver_info` in `quirks`. |
| Detect.EnumerationQuirksHoldNothingElse | drivers/usb/core/quirks.c:222-252 | After enumeration, `quirks` lies inside any mask that holds the bits of every matching data row of either table. |
| FieldMatch.DeviceEntryMatchesExactly | drivers/usb/core/quirks.c:36 | Under the stand-in matcher, a `USB_DEVICE(vendor, product)` row matches exactly the devices with that vendor and product. |
| FieldMatch.VendorInterfaceEntryMatchesExactly | drivers/usb/core/quirks.c:167 | Under the stand-in matcher, a `USB_VENDOR_AND_INTERFACE_INFO` row passes the device match exactly on its vendor, and accepts exactly the interfaces with its class, subclass and protocol. |
| Scenarios.QuickcamFusionRowIsUnique | drivers/usb/core/quirks.c:48-49 | 046d:08c1 appears in exactly one row of the device table, and that row gives RESET_RESUME. |
| Scenarios.QuickcamFusionRowMatches | drivers/usb/core/quirks.c:48-49 | That row is examined and applies to any device with vendor 046d and product 08c1. |
| Scenarios.OnlyQuickcamFusionRowMatches | drivers/usb/core/quirks.c:34-163 | No other row of the device table applies to such a device. |
| Scenarios.QuickcamFusionDeviceQuirks | drivers/usb/core/quirks.c:222-224 | The device pass gives a Quickcam Fusion exactly RESET_RESUME. |
| Scenarios.UvcRowMatchesQuickcamFusion | drivers/usb/core/quirks.c:166-168 | The Logitech UVC row applies to a Quickcam Fusion with a video interface of subclass 1 and protocol 0. |
| Scenarios.AsusRowSkipsQuickcamFusion | drivers/usb/core/quirks.c:170-172 | The ASUS row does not apply to it. |
| Scenarios.QuickcamFusionInterfaceQuirks | drivers/usb/core/quirks.c:241-245 | The interface pass finds exactly RESET_RESUME for it. |
| Scenarios.ResetResumeIsNotResetMorphs | drivers/usb/core/quirks.c:236 | When the quirk values are distinct bits, RESET_RESUME holds no RESET_MORPHS bit. |
| Scenarios.QuickcamFusionDevicePass | drivers/usb/core/quirks.c:222-239 | After the device pass, run before its configuration is read, a Quickcam Fusion holds RESET_RESUME and `persist_enabled` is set, whatever it held before. |
| Scenarios.QuickcamFusionEnumeration | drivers/usb/core/quirks.c:222-252 | After enumeration, with the device pass before and the interface pass after its configuration is read, its quirks are exactly RESET_RESUME, with the two RESET_RESUME rows collapsing into one bit, and `persist_enabled` is set. |
| Scenarios.SearchSpansConfigurations | drivers/usb/core/quirks.c:182-197 | The search looks past the first configuration and past an interface with no alternate settings. It finds a match that exists only in the second interface of the second configuration, and finds nothing when that interface does not match. |
| Scenarios.ForeignVendorSkipsInterfaceRow | drivers/usb/core/quirks.c:209-214 | The Logitech UVC row contributes nothing to a device of another vendor, without consulting any interface and without needing configuration data. |

## Left out

- The `dev_dbg` messages (`quirks.c:225-227`, `249-250`) are diagnostic output only.
- The `#if 0` branch that enables persistence for hub-class devices (`quirks.c:230-234`) is dead code.
- The definitions of `usb_match_device` and `usb_match_one_id_intf` are not part of this model. Neither are the `USB_DEVICE` and `USB_VENDOR_AND_INTERFACE_INFO` macros, the `USB_DEVICE_ID_MATCH_*` values and `USB_CLASS_VIDEO`.
  - The core modules take the matchers as a parameter.
  - `FieldMatch.FieldMatcher` is an assumption standing in for them in `Scenarios` only. It compares the fields each match flag names. On a vendor-specific-class device (`USB_CLASS_VENDOR_SPEC`, 0xff), an interface match requires the row to name its vendor.
  - It does not model the `bInterfaceNumber` match flag, which neither table uses.
  - The macro expansions are taken as vendor and product for `USB_DEVICE`. They are taken as vendor plus interface class, subclass and protocol for `USB_VENDOR_AND_INTERFACE_INFO`.
  - `USB_CLASS_VIDEO` is taken as 0x0e, the video class code.
- The numeric values of the `USB_QUIRK_*` bits are defined in a header that is not part of this model. They are the parameter `k: QuirkBits`, and every property holds for all of their values. `QuirkBits.Distinct` is assumed only where a concrete outcome depends on RESET_RESUME and RESET_MORPHS being different bits.
- The matchers are assumed to read only the device descriptor and one interface descriptor, never `quirks` or `persist_enabled`. This is an assumption about `usb_match_device` and `usb_match_one_id_intf`, whose code is not part of this model. `Detect.DevicePassReplacesQuirks`, `Detect.DevicePassIgnoresOldQuirks`, `Detect.DevicePassIdempotent` and `Detect.InterfacePassIdempotent` rest on it.
- `DeviceIds.MatchField` has no `bInterfaceNumber` flag (`USB_DEVICE_ID_MATCH_INT_NUMBER`), so no matcher in the model, the generic ones included, can test the interface number. Neither table uses that flag.
- `driver_info` (`kernel_ulong_t`) is modelled as 64 bits wide. On a 32-bit kernel the cast is the identity, which is the case `TruncateKeepsLowWord` covers with a zero high word.
- `InterfaceSearch.MatchAnyInterface` requires the configuration tree to be parsed: a `config` entry for each announced configuration and an interface cache for each announced interface. The source indexes these without checks and relies on the enumeration code, comment at `quirks.c:23-24`. `Scan` demands this only for INT_INFO rows whose device match passes, so the device pass needs no configuration data.
- The device's other state, locking and the rest of the enumeration sequence are not part of this model. `drivers/input/mouse/synaptics.h` is not part of this model either; it holds constants and struct layouts with no algorithm. `Detect.Enumerate` keeps only the order of enumeration: device pass, configuration descriptors read, interface pass.

/**
 The two entry points: `usb_detect_quirks`, the device pass, and
 `usb_detect_interface_quirks`, the interface pass.
 */
module Detect {
  import opened QuirkFlags
  import opened Descriptors
  import opened DeviceIds
  import opened Scan
  import opened QuirkTables

  /** `__usb_detect_quirks(udev, usb_quirk_list)`. The device table holds no
      INT_INFO row, so this needs no configuration data. */
  function DeviceTableQuirks(k: QuirkBits, m: Matcher, dev: DeviceTree): (q: Mask) {
    DeviceQuirkListActive(k);
    DetectQuirks(m, dev, DeviceQuirkList(k))
  }

  /** `__usb_detect_quirks(udev, usb_interface_quirk_list)`. */
  function InterfaceTableQuirks(k: QuirkBits, m: Matcher, dev: DeviceTree): (q: Mask)
    requires ConfigsReady(dev)
  {
    InterfaceQuirkListActive(k);
    DetectQuirks(m, dev, InterfaceQuirkList(k))
  }

  /** `usb_detect_quirks`: the device-table result replaces `quirks`;
      `persist_enabled` is then set unless the result holds a RESET_MORPHS bit,
      and is never cleared. */
  function DetectDeviceQuirks(k: QuirkBits, m: Matcher, udev: UsbDevice): (u: UsbDevice)
    ensures u.tree == udev.tree
    ensures u.quirks == DeviceTableQuirks(k, m, udev.tree)
    ensures u.quirks & k.resetMorphs == 0 ==> u.persistEnabled
    ensures u.quirks & k.resetMorphs != 0 ==> u.persistEnabled == udev.persistEnabled
  {
    var q := DeviceTableQuirks(k, m, udev.tree);
    UsbDevice(udev.tree, q, if q & k.resetMorphs == 0 then true else udev.persistEnabled)
  }

  /** The update `usb_detect_interface_quirks` makes with a table result `q`:
      nothing when `q` is zero, otherwise `quirks |= q`. */
  function OrQuirks(udev: UsbDevice, q: Mask): (u: UsbDevice)
    ensures u.tree == udev.tree && u.persistEnabled == udev.persistEnabled
    ensures u.quirks == udev.quirks | q
    ensures q == 0 ==> u == udev
  {
    if q == 0 then udev else udev.(quirks := udev.quirks | q)
  }

  lemma OrQuirksKeeps(udev: UsbDevice, q: Mask)
    ensures Subset(udev.quirks, OrQuirks(udev, q).quirks) && Subset(q, OrQuirks(udev, q).quirks)
  {
    SubsetOfOrLeft(udev.quirks, q);
  }

  /** `usb_detect_interface_quirks`: the interface-table result is ORed into
      `quirks`; a zero result leaves the device untouched, and
      `persist_enabled` is never touched. */
  function DetectInterfaceQuirks(k: QuirkBits, m: Matcher, udev: UsbDevice): (u: UsbDevice)
    requires ConfigsReady(udev.tree)
    ensures u.tree == udev.tree && u.persistEnabled == udev.persistEnabled
    ensures u.quirks == udev.quirks | InterfaceTableQuirks(k, m, udev.tree)
    ensures InterfaceTableQuirks(k, m, udev.tree) == 0 ==> u == udev
  {
    OrQuirks(udev, InterfaceTableQuirks(k, m, udev.tree))
  }

  /** The device pass does not read the old quirks: they are replaced, so two
      devices with the same descriptors end with the same quirks ... */
  lemma DevicePassReplacesQuirks(k: QuirkBits, m: Matcher, u1: UsbDevice, u2: UsbDevice)
    requires u1.tree == u2.tree
    ensures DetectDeviceQuirks(k, m, u1).quirks == DetectDeviceQuirks(k, m, u2).quirks
  {
  }

  /** ... and, when their `persist_enabled` agrees too, in the same state. */
  lemma DevicePassIgnoresOldQuirks(k: QuirkBits, m: Matcher, u1: UsbDevice, u2: UsbDevice)
    requires u1.tree == u2.tree && u1.persistEnabled == u2.persistEnabled
    ensures DetectDeviceQuirks(k, m, u1) == DetectDeviceQuirks(k, m, u2)
  {
  }

  /** `persist_enabled` is only ever set by the device pass, never cleared. */
  lemma DevicePassNeverClearsPersist(k: QuirkBits, m: Matcher, udev: UsbDevice)
    requires udev.persistEnabled
    ensures DetectDeviceQuirks(k, m, udev).persistEnabled
  {
  }

  /** Running the device pass twice leaves the same state as running it once. */
  lemma DevicePassIdempotent(k: QuirkBits, m: Matcher, udev: UsbDevice)
    ensures DetectDeviceQuirks(k, m, DetectDeviceQuirks(k, m, udev)) == DetectDeviceQuirks(k, m, udev)
  {
  }

  /** The interface pass never clears a bit: the old quirks and the table
      result are both kept. */
  lemma InterfacePassNeverClears(k: QuirkBits, m: Matcher, udev: UsbDevice)
    requires ConfigsReady(udev.tree)
    ensures Subset(udev.quirks, DetectInterfaceQuirks(k, m, udev).quirks)
    ensures Subset(InterfaceTableQuirks(k, m, udev.tree), DetectInterfaceQuirks(k, m, udev).quirks)
  {
    var q := InterfaceTableQuirks(k, m, udev.tree);
    OrQuirksKeeps(udev, q);
    assert DetectInterfaceQuirks(k, m, udev) == OrQuirks(udev, q);
  }

  /** Running the interface pass twice leaves the same state as running it once. */
  lemma InterfacePassIdempotent(k: QuirkBits, m: Matcher, udev: UsbDevice)
    requires ConfigsReady(udev.tree)
    ensures ConfigsReady(DetectInterfaceQuirks(k, m, udev).tree)
    ensures DetectInterfaceQuirks(k, m, DetectInterfaceQuirks(k, m, udev)) == DetectInterfaceQuirks(k, m, udev)
  {
  }

  /** The device pass reads the device descriptor and nothing else: trees that
      agree on it give the same device-table result, whether or not the
      configuration descriptors have been read. */
  lemma DevicePassDescriptorOnly(k: QuirkBits, m: Matcher, t0: DeviceTree, t1: DeviceTree)
    requires t0.descriptor == t1.descriptor
    ensures DeviceTableQuirks(k, m, t0) == DeviceTableQuirks(k, m, t1)
  {
    DeviceQuirkListActive(k);
    UnionOfDescriptorOnly(m, t0, t1, DeviceQuirkRules(k));
  }

  /** Enumeration as the core orders it: the device pass runs right after the
      device descriptor is read, the configuration descriptors are then read
      into `parsed`, and the interface pass runs on the parsed tree. */
  function Enumerate(k: QuirkBits, m: Matcher, udev: UsbDevice, parsed: DeviceTree): (u: UsbDevice)
    requires parsed.descriptor == udev.tree.descriptor && ConfigsReady(parsed)
    ensures u.tree == parsed
    ensures u.persistEnabled == DetectDeviceQuirks(k, m, udev).persistEnabled
  {
    DetectInterfaceQuirks(k, m, DetectDeviceQuirks(k, m, udev).(tree := parsed))
  }

  /** After enumeration the quirks are the device-table result ORed with the
      interface-table result, both read off the parsed tree, although the
      device pass ran before the configuration descriptors were read. */
  lemma EnumerationQuirksAreBothTables(k: QuirkBits, m: Matcher, udev: UsbDevice, parsed: DeviceTree)
    requires parsed.descriptor == udev.tree.descriptor && ConfigsReady(parsed)
    ensures Enumerate(k, m, udev, parsed).quirks == DeviceTableQuirks(k, m, parsed) | InterfaceTableQuirks(k, m, parsed)
  {
    DevicePassDescriptorOnly(k, m, udev.tree, parsed);
  }

  /** A data row of either table. */
  predicate InBothTables(k: QuirkBits, r: DeviceId) {
    r in DeviceQuirkRules(k) || r in InterfaceQuirkRules(k)
  }

  /** After enumeration the device's quirks hold the truncated driver_info of
      every data row of either table that matches the parsed device. */
  lemma EnumerationQuirksHoldEveryMatchingRow(k: QuirkBits, m: Matcher, udev: UsbDevice, parsed: DeviceTree)
    requires parsed.descriptor == udev.tree.descriptor && ConfigsReady(parsed)
    ensures forall r :: InBothTables(k, r) && RowMatches(m, parsed, r) ==>
      Subset(Truncate(r.driverInfo), Enumerate(k, m, udev, parsed).quirks)
  {
    DeviceQuirkListActive(k);
    InterfaceQuirkListActive(k);
    EnumerationQuirksAreBothTables(k, m, udev, parsed);
    TwoScansUpper(m, parsed, DeviceQuirkList(k), InterfaceQuirkList(k));
  }

  /** ... and nothing else: any mask holding the bits of every matching row
      of either table holds the device's quirks after enumeration. */
  lemma EnumerationQuirksHoldNothingElse(k: QuirkBits, m: Matcher, udev: UsbDevice, parsed: DeviceTree, bound: Mask)
    requires parsed.descriptor == udev.tree.descriptor && ConfigsReady(parsed)
    requires forall r :: InBothTables(k, r) && RowMatches(m, parsed, r) ==> Subset(Truncate(r.driverInfo), bound)
    ensures Subset(Enumerate(k, m, udev, parsed).quirks, bound)
  {
    DeviceQuirkListActive(k);
    InterfaceQuirkListActive(k);
    EnumerationQuirksAreBothTables(k, m, udev, parsed);
    TwoScansLeast(m, parsed, DeviceQuirkList(k), InterfaceQuirkList(k), bound);
  }
}

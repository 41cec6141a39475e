/**
 The two static rule tables, `usb_quirk_list` and `usb_interface_quirk_list`,
 row for row and in source order, each ending in its terminating entry.
 */
module QuirkTables {
  import opened QuirkFlags
  import opened Descriptors
  import opened DeviceIds
  import opened Scan

  /** `USB_CLASS_VIDEO`, the video interface class code. */
  const ClassVideo: u8 := 0x0e

  /** The rows of `usb_quirk_list` before its terminating entry, in source
      order: `{ USB_DEVICE(vendor, product), .driver_info = USB_QUIRK_<quirk> }`. */
  const DeviceQuirkRows: seq<(u16, u16, Quirk)> := [
    (0x0204, 0x6025, ResetResume),
    (0x03f0, 0x0701, StringFetch255),
    (0x045e, 0x0770, ResetResume),       // Microsoft LifeCam-VX700 v2.0
    (0x041e, 0x3020, ResetResume),       // Logitech Webcam C200
    (0x046d, 0x08c1, ResetResume),       // Logitech Quickcam Fusion
    (0x046d, 0x08c2, ResetResume),       // Logitech Quickcam Orbit MP
    (0x046d, 0x08c3, ResetResume),       // Logitech Quickcam Pro for Notebook
    (0x046d, 0x08c5, ResetResume),       // Logitech Quickcam Pro 5000
    (0x046d, 0x08c6, ResetResume),       // Logitech Quickcam OEM Dell Notebook
    (0x046d, 0x08c7, ResetResume),       // Logitech Quickcam OEM Cisco VT Camera II
    (0x046d, 0xc122, DelayInit),         // Logitech Harmony 700-series
    (0x0471, 0x0155, ResetResume),
    (0x04b4, 0x0526, ConfigIntfStrings),
    (0x04d8, 0x000c, ConfigIntfStrings), // Microchip Joss Optical infrared touchboard
    (0x04e7, 0x0009, ResetResume),       // CarrolTouch 4000U
    (0x04e7, 0x0030, ResetResume),       // CarrolTouch 4500U
    (0x04e8, 0x6601, ConfigIntfStrings), // Samsung Android phone modem
    (0x04f3, 0x009b, DeviceQualifier),
    (0x04f3, 0x016f, DeviceQualifier),
    (0x0582, 0x0007, ResetResume),       // Roland SC-8820
    (0x0582, 0x0027, ResetResume),       // Edirol SD-20
    (0x058f, 0x9254, ResetResume),       // Alcor Micro Corp. Hub
    (0x0596, 0x051e, ResetResume),       // MicroTouch Systems touchscreen
    (0x05ac, 0x021a, ResetResume),       // appletouch
    (0x0638, 0x0a13, StringFetch255),
    (0x06a3, 0x0006, ConfigIntfStrings),
    (0x06f8, 0x0804, ResetResume),
    (0x06f8, 0x3005, ResetResume),
    (0x0763, 0x0192, ResetResume),
    (0x08ec, 0x1000, ResetResume),
    (0x0926, 0x3333, ConfigIntfStrings),
    (0x0971, 0x2000, NoSetIntf),
    (0x0a5c, 0x2021, ResetResume),       // Broadcom BCM92035DGROM BT dongle
    (0x0a92, 0x0091, ResetResume),       // MAYA44USB sound device
    (0x10d6, 0x2200, StringFetch255),    // Action Semiconductor flash disk
    (0x1516, 0x8628, ResetResume),
    (0x1908, 0x1315, HonorBNumInterfaces),
    (0x8086, 0xf1a5, ResetResume),
    (0x1a0a, 0x0200, OtgPet)
  ]

  /** The data rows of `usb_quirk_list`, in source order. */
  function DeviceQuirkRules(k: QuirkBits): (rows: seq<DeviceId>) {
    seq(|DeviceQuirkRows|, i requires 0 <= i < |DeviceQuirkRows| =>
      DeviceEntry(DeviceQuirkRows[i].0, DeviceQuirkRows[i].1, k.Value(DeviceQuirkRows[i].2)))
  }

  /** `usb_quirk_list`: device quirks, applied right after the device
      descriptor is read; the data rows and then the terminating entry. */
  function DeviceQuirkList(k: QuirkBits): (t: seq<DeviceId>) {
    DeviceQuirkRules(k) + [Terminator]
  }

  /** The data rows of `usb_interface_quirk_list`. */
  function InterfaceQuirkRules(k: QuirkBits): (rows: seq<DeviceId>) {
    [
      VendorInterfaceEntry(0x046d, ClassVideo, 1, 0, k.resetResume),   // Logitech UVC cameras
      DeviceEntry(0x0b05, 0x17e0, k.ignoreRemoteWakeup)               // ASUS Base Station (T100)
    ]
  }

  /** `usb_interface_quirk_list`: interface quirks, applied once every
      configuration descriptor has been read. */
  function InterfaceQuirkList(k: QuirkBits): (t: seq<DeviceId>) {
    InterfaceQuirkRules(k) + [Terminator]
  }

  /** The device table is terminated right after its data rows, and none of
      them is an INT_INFO row: the device pass never searches interfaces. */
  lemma DeviceQuirkListActive(k: QuirkBits)
    ensures Terminated(DeviceQuirkList(k))
    ensures Active(DeviceQuirkList(k)) == DeviceQuirkRules(k)
    ensures forall r :: r in DeviceQuirkRules(k) ==> !IsIntInfo(r)
  {
    var rows := DeviceQuirkRules(k);
    forall r | r in rows
      ensures !IsTerminator(r) && !IsIntInfo(r)
    {
      var i :| 0 <= i < |rows| && rows[i] == r;
      DeviceEntryShape(DeviceQuirkRows[i].0, DeviceQuirkRows[i].1, k.Value(DeviceQuirkRows[i].2));
    }
    ActiveUpToTerminator(rows, [Terminator]);
  }

  /** The interface table is terminated after its two rows; the first is an
      INT_INFO row and the second is not. */
  lemma InterfaceQuirkListActive(k: QuirkBits)
    ensures Terminated(InterfaceQuirkList(k))
    ensures Active(InterfaceQuirkList(k)) == InterfaceQuirkRules(k)
    ensures IsIntInfo(InterfaceQuirkRules(k)[0]) && !IsIntInfo(InterfaceQuirkRules(k)[1])
  {
    var rows := InterfaceQuirkRules(k);
    VendorInterfaceEntryShape(0x046d, ClassVideo, 1, 0, k.resetResume);
    DeviceEntryShape(0x0b05, 0x17e0, k.ignoreRemoteWakeup);
    ActiveUpToTerminator(rows, [Terminator]);
  }
}

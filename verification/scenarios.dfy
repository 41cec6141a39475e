/**
 Consequences of the two tables for particular devices, read through the
 field-by-field matcher.
 */
module Scenarios {
  import opened QuirkFlags
  import opened Descriptors
  import opened DeviceIds
  import opened InterfaceSearch
  import opened Scan
  import opened QuirkTables
  import opened Detect
  import opened FieldMatch

  /** 046d:08c1 (Logitech Quickcam Fusion) has exactly one row in `usb_quirk_list`. */
  lemma QuickcamFusionRowIsUnique()
    ensures DeviceQuirkRows[4] == (0x046d, 0x08c1, ResetResume)
    ensures forall i :: 0 <= i < |DeviceQuirkRows| && DeviceQuirkRows[i].0 == 0x046d && DeviceQuirkRows[i].1 == 0x08c1 ==> i == 4
  {
  }

  /** Its row applies to a Quickcam Fusion ... */
  lemma QuickcamFusionRowMatches(k: QuirkBits, dev: DeviceTree)
    requires dev.descriptor.idVendor == 0x046d && dev.descriptor.idProduct == 0x08c1
    ensures ScanReady(FieldMatcher(), dev, DeviceQuirkList(k))
    ensures DeviceQuirkRules(k)[4] in Active(DeviceQuirkList(k))
    ensures RowMatches(FieldMatcher(), dev, DeviceQuirkRules(k)[4])
    ensures Truncate(DeviceQuirkRules(k)[4].driverInfo) == k.resetResume
  {
    DeviceQuirkListActive(k);
    QuickcamFusionRowIsUnique();
    DeviceEntryShape(0x046d, 0x08c1, k.resetResume);
    DeviceEntryMatchesExactly(0x046d, 0x08c1, k.resetResume, dev.descriptor);
  }

  /** ... and no other row of `usb_quirk_list` does. */
  lemma OnlyQuickcamFusionRowMatches(k: QuirkBits, dev: DeviceTree)
    requires dev.descriptor.idVendor == 0x046d && dev.descriptor.idProduct == 0x08c1
    ensures ScanReady(FieldMatcher(), dev, DeviceQuirkList(k))
    ensures forall r :: r in Active(DeviceQuirkList(k)) && RowMatches(FieldMatcher(), dev, r) ==> r == DeviceQuirkRules(k)[4]
  {
    DeviceQuirkListActive(k);
    var rows := DeviceQuirkRules(k);
    forall r | r in rows && RowMatches(FieldMatcher(), dev, r)
      ensures r == rows[4]
    {
      var i :| 0 <= i < |rows| && rows[i] == r;
      DeviceEntryMatchesExactly(DeviceQuirkRows[i].0, DeviceQuirkRows[i].1, k.Value(DeviceQuirkRows[i].2), dev.descriptor);
      QuickcamFusionRowIsUnique();
    }
  }

  /** The device pass gives a Quickcam Fusion exactly RESET_RESUME, whatever
      its other descriptor fields. */
  lemma QuickcamFusionDeviceQuirks(k: QuirkBits, dev: DeviceTree)
    requires dev.descriptor.idVendor == 0x046d && dev.descriptor.idProduct == 0x08c1
    ensures DeviceTableQuirks(k, FieldMatcher(), dev) == k.resetResume
  {
    QuickcamFusionRowMatches(k, dev);
    OnlyQuickcamFusionRowMatches(k, dev);
    DetectQuirksSingleValue(FieldMatcher(), dev, DeviceQuirkList(k), DeviceQuirkRules(k)[4], k.resetResume);
  }

  /** A Quickcam Fusion with a single configuration holding one video
      interface of subclass 1, protocol 0. */
  const QuickcamFusion: DeviceTree := DeviceTree(
    DeviceDescriptor(0x046d, 0x08c1, 0x0100, 0xef, 2, 1, 1),
    [HostConfig(ConfigDescriptor(1, 1), [InterfaceCache([InterfaceDescriptor(0, 0, ClassVideo, 1, 0)])])])

  /** The Logitech UVC row applies to it ... */
  lemma UvcRowMatchesQuickcamFusion(k: QuirkBits)
    ensures ConfigsReady(QuickcamFusion)
    ensures RowReady(FieldMatcher(), QuickcamFusion, InterfaceQuirkRules(k)[0])
    ensures RowMatches(FieldMatcher(), QuickcamFusion, InterfaceQuirkRules(k)[0])
  {
    var dev := QuickcamFusion;
    assert ConfigsReady(dev);
    VendorInterfaceEntryShape(0x046d, ClassVideo, 1, 0, k.resetResume);
    VendorInterfaceEntryMatchesExactly(0x046d, ClassVideo, 1, 0, k.resetResume, dev.descriptor, dev.config[0].intfCache[0].altsetting[0]);
    assert MatchesAt(FieldMatcher(), dev, InterfaceQuirkRules(k)[0], 0, 0);
  }

  /** ... and the ASUS row does not. */
  lemma AsusRowSkipsQuickcamFusion(k: QuirkBits)
    ensures ConfigsReady(QuickcamFusion)
    ensures RowReady(FieldMatcher(), QuickcamFusion, InterfaceQuirkRules(k)[1])
    ensures !RowMatches(FieldMatcher(), QuickcamFusion, InterfaceQuirkRules(k)[1])
  {
    assert ConfigsReady(QuickcamFusion);
    DeviceEntryMatchesExactly(0x0b05, 0x17e0, k.ignoreRemoteWakeup, QuickcamFusion.descriptor);
  }

  /** So the interface pass also gives it exactly RESET_RESUME. */
  lemma QuickcamFusionInterfaceQuirks(k: QuirkBits)
    ensures ConfigsReady(QuickcamFusion)
    ensures InterfaceTableQuirks(k, FieldMatcher(), QuickcamFusion) == k.resetResume
  {
    UvcRowMatchesQuickcamFusion(k);
    AsusRowSkipsQuickcamFusion(k);
    InterfaceQuirkListActive(k);
    VendorInterfaceEntryShape(0x046d, ClassVideo, 1, 0, k.resetResume);
    DetectQuirksSingleValue(FieldMatcher(), QuickcamFusion, InterfaceQuirkList(k), InterfaceQuirkRules(k)[0], k.resetResume);
  }

  /** RESET_RESUME and RESET_MORPHS share no bit. */
  lemma ResetResumeIsNotResetMorphs(k: QuirkBits)
    requires k.Distinct()
    ensures k.resetResume & k.resetMorphs == 0
  {
    assert k.All()[1] & k.All()[4] == 0;
  }

  /** The same camera as the device pass sees it: the device descriptor has
      been read, the configuration descriptors not yet. */
  const QuickcamFusionUnparsed: DeviceTree := DeviceTree(QuickcamFusion.descriptor, [])

  /** After the device pass a Quickcam Fusion holds RESET_RESUME and may be persisted. */
  lemma QuickcamFusionDevicePass(k: QuirkBits, quirks: Mask, persist: bool)
    requires k.Distinct()
    ensures
      var d := DetectDeviceQuirks(k, FieldMatcher(), UsbDevice(QuickcamFusionUnparsed, quirks, persist));
      d.tree == QuickcamFusionUnparsed && d.quirks == k.resetResume && d.persistEnabled
  {
    QuickcamFusionDeviceQuirks(k, QuickcamFusionUnparsed);
    ResetResumeIsNotResetMorphs(k);
  }

  /** Enumerating a Quickcam Fusion: the device pass before its configuration
      is read, the interface pass after. The two RESET_RESUME rows collapse
      into one bit, and since RESET_RESUME is not RESET_MORPHS,
      `persist_enabled` ends up set. */
  lemma QuickcamFusionEnumeration(k: QuirkBits, quirks: Mask, persist: bool)
    requires k.Distinct()
    ensures ConfigsReady(QuickcamFusion)
    ensures
      var u := Enumerate(k, FieldMatcher(), UsbDevice(QuickcamFusionUnparsed, quirks, persist), QuickcamFusion);
      u.tree == QuickcamFusion && u.quirks == k.resetResume && u.persistEnabled
  {
    QuickcamFusionDevicePass(k, quirks, persist);
    QuickcamFusionInterfaceQuirks(k);
    OrIdempotent(k.resetResume);
  }

  /** Any interface descriptor of class `cl`, subclass 0, protocol 0. */
  function Interface(number: u8, cl: u8): (intf: InterfaceDescriptor) {
    InterfaceDescriptor(number, 0, cl, 0, 0)
  }

  /** A Logitech device with two configurations of two interfaces each; the
      last interface of the last configuration has class `last`. */
  function TwoConfigDevice(last: u8): (dev: DeviceTree) {
    DeviceTree(
      DeviceDescriptor(0x046d, 0x0825, 0x0010, 0, 0, 0, 2),
      [HostConfig(ConfigDescriptor(2, 1), [InterfaceCache([Interface(0, 1)]), InterfaceCache([Interface(1, 3)])]),
       HostConfig(ConfigDescriptor(2, 2), [InterfaceCache([]), InterfaceCache([Interface(1, last)])])])
  }

  /** The search looks past the first configuration, and past an interface
      with no alternate settings: it finds the only matching interface, the
      second of the second configuration, and finds nothing when that
      interface does not match either. */
  lemma SearchSpansConfigurations(info: Mask)
    ensures ConfigsReady(TwoConfigDevice(ClassVideo)) && ConfigsReady(TwoConfigDevice(3))
    ensures MatchAnyInterface(FieldMatcher(), TwoConfigDevice(ClassVideo), VendorInterfaceEntry(0x046d, ClassVideo, 0, 0, info))
    ensures !MatchAnyInterface(FieldMatcher(), TwoConfigDevice(3), VendorInterfaceEntry(0x046d, ClassVideo, 0, 0, info))
  {
    var id := VendorInterfaceEntry(0x046d, ClassVideo, 0, 0, info);
    var yes, no := TwoConfigDevice(ClassVideo), TwoConfigDevice(3);
    assert ConfigsReady(yes) && ConfigsReady(no);
    forall cl: u8, intf: InterfaceDescriptor
      ensures FieldMatcher().intf(TwoConfigDevice(cl).descriptor, intf, id)
        <==> intf.bInterfaceClass == ClassVideo && intf.bInterfaceSubClass == 0 && intf.bInterfaceProtocol == 0
    {
      VendorInterfaceEntryMatchesExactly(0x046d, ClassVideo, 0, 0, info, TwoConfigDevice(cl).descriptor, intf);
    }
    assert MatchesAt(FieldMatcher(), yes, id, 1, 1);
    assert !MatchesAt(FieldMatcher(), no, id, 0, 0) && !MatchesAt(FieldMatcher(), no, id, 0, 1);
    assert !MatchesAt(FieldMatcher(), no, id, 1, 0) && !MatchesAt(FieldMatcher(), no, id, 1, 1);
  }

  /** An INT_INFO row whose vendor does not match contributes nothing, even
      when an interface would match, and needs no configuration data. */
  lemma ForeignVendorSkipsInterfaceRow(k: QuirkBits, dev: DeviceTree)
    requires dev.descriptor.idVendor != 0x046d
    ensures RowReady(FieldMatcher(), dev, InterfaceQuirkRules(k)[0])
    ensures Contribution(FieldMatcher(), dev, InterfaceQuirkRules(k)[0]) == 0
  {
    VendorInterfaceEntryMatchesExactly(0x046d, ClassVideo, 1, 0, k.resetResume, dev.descriptor, InterfaceDescriptor(0, 0, 0, 0, 0));
  }
}

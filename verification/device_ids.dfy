/**
 Rule rows (`struct usb_device_id`), the two macros the quirk tables are
 written with, and the abstract per-row matchers.
 */
module DeviceIds {
  import opened QuirkFlags
  import opened Descriptors

  /** The `USB_DEVICE_ID_MATCH_*` bits of `match_flags`, by name. */
  datatype MatchField =
    | Vendor | Product | DevLo | DevHi
    | DevClass | DevSubClass | DevProtocol
    | IntClass | IntSubClass | IntProtocol

  /** `USB_DEVICE_ID_MATCH_DEVICE`: vendor and product. */
  const DeviceMatch: set<MatchField> := {Vendor, Product}

  /** `USB_DEVICE_ID_MATCH_INT_INFO`: interface class, subclass and protocol. */
  const IntInfo: set<MatchField> := {IntClass, IntSubClass, IntProtocol}

  /** One row of a quirk table. `matchFlags` is `match_flags` as a set of
      named bits; the empty set is the all-zero terminating entry. */
  datatype DeviceId = DeviceId(
    matchFlags: set<MatchField>,
    idVendor: u16,
    idProduct: u16,
    bcdDeviceLo: u16,
    bcdDeviceHi: u16,
    bDeviceClass: u8,
    bDeviceSubClass: u8,
    bDeviceProtocol: u8,
    bInterfaceClass: u8,
    bInterfaceSubClass: u8,
    bInterfaceProtocol: u8,
    driverInfo: bv64)

  /** A row whose `match_flags` is zero ends the table. */
  predicate IsTerminator(id: DeviceId) {
    id.matchFlags == {}
  }

  /** `match_flags & USB_DEVICE_ID_MATCH_INT_INFO` is non-zero. */
  predicate IsIntInfo(id: DeviceId) {
    id.matchFlags * IntInfo != {}
  }

  /** The terminating entry `{ }`. */
  const Terminator: DeviceId := DeviceId({}, 0, 0, 0, 0, 0, 0, 0, 0, 0, 0, 0)

  /** `{ USB_DEVICE(vendor, product), .driver_info = info }`. */
  function DeviceEntry(vendor: u16, product: u16, info: Mask): (id: DeviceId)
  {
    DeviceId(DeviceMatch, vendor, product, 0, 0, 0, 0, 0, 0, 0, 0, info as bv64)
  }

  /** `{ USB_VENDOR_AND_INTERFACE_INFO(vendor, cl, sc, pr), .driver_info = info }`. */
  function VendorInterfaceEntry(vendor: u16, cl: u8, sc: u8, pr: u8, info: Mask): (id: DeviceId)
  {
    DeviceId(IntInfo + {Vendor}, vendor, 0, 0, 0, 0, 0, 0, cl, sc, pr, info as bv64)
  }

  /** A `USB_DEVICE` row is neither a terminator nor an INT_INFO row, and its
      driver_info truncates back to the quirk mask it was written with. */
  lemma DeviceEntryShape(vendor: u16, product: u16, info: Mask)
    ensures !IsTerminator(DeviceEntry(vendor, product, info))
    ensures !IsIntInfo(DeviceEntry(vendor, product, info))
    ensures Truncate(DeviceEntry(vendor, product, info).driverInfo) == info
  {
    assert Vendor in DeviceEntry(vendor, product, info).matchFlags;
    TruncateKeepsLowWord(info, 0);
  }

  /** A `USB_VENDOR_AND_INTERFACE_INFO` row is an INT_INFO row that also tests the vendor. */
  lemma VendorInterfaceEntryShape(vendor: u16, cl: u8, sc: u8, pr: u8, info: Mask)
    ensures !IsTerminator(VendorInterfaceEntry(vendor, cl, sc, pr, info))
    ensures IsIntInfo(VendorInterfaceEntry(vendor, cl, sc, pr, info))
    ensures Truncate(VendorInterfaceEntry(vendor, cl, sc, pr, info).driverInfo) == info
  {
    assert IntClass in VendorInterfaceEntry(vendor, cl, sc, pr, info).matchFlags;
    TruncateKeepsLowWord(info, 0);
  }

  /** The two per-row matchers, `usb_match_device` and `usb_match_one_id_intf`,
      whose definitions are not part of this model. They see the device
      descriptor (and one interface descriptor), never the quirk fields. */
  datatype Matcher = Matcher(
    device: (DeviceDescriptor, DeviceId) -> bool,
    intf: (DeviceDescriptor, InterfaceDescriptor, DeviceId) -> bool)
}

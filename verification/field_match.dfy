/**
 A field-by-field reading of the two per-row matchers, used only to state
 concrete consequences of the tables. `usb_match_device` and
 `usb_match_one_id_intf` live in the USB core's driver matching code, which
 is not part of this model; everything else in this project holds for any
 `Matcher`. This one follows the usual semantics of `match_flags`: each set
 flag demands that the named descriptor field equal the row's field (for
 `DevLo`/`DevHi`, that `bcdDevice` lie within the bound).
 */
module FieldMatch {
  import opened QuirkFlags
  import opened Descriptors
  import opened DeviceIds

  /** `USB_CLASS_VENDOR_SPEC`. */
  const ClassVendorSpec: u8 := 0xff

  /** The device-level checks of a row. */
  predicate MatchDeviceFields(d: DeviceDescriptor, id: DeviceId) {
    && (Vendor in id.matchFlags ==> id.idVendor == d.idVendor)
    && (Product in id.matchFlags ==> id.idProduct == d.idProduct)
    && (DevLo in id.matchFlags ==> id.bcdDeviceLo <= d.bcdDevice)
    && (DevHi in id.matchFlags ==> d.bcdDevice <= id.bcdDeviceHi)
    && (DevClass in id.matchFlags ==> id.bDeviceClass == d.bDeviceClass)
    && (DevSubClass in id.matchFlags ==> id.bDeviceSubClass == d.bDeviceSubClass)
    && (DevProtocol in id.matchFlags ==> id.bDeviceProtocol == d.bDeviceProtocol)
  }

  /** The interface-level checks of a row against one interface descriptor.
      On a vendor-specific-class device a row must name the vendor before its
      interface fields may match. */
  predicate MatchInterfaceFields(d: DeviceDescriptor, intf: InterfaceDescriptor, id: DeviceId) {
    && !(d.bDeviceClass == ClassVendorSpec && Vendor !in id.matchFlags && id.matchFlags * IntInfo != {})
    && (IntClass in id.matchFlags ==> id.bInterfaceClass == intf.bInterfaceClass)
    && (IntSubClass in id.matchFlags ==> id.bInterfaceSubClass == intf.bInterfaceSubClass)
    && (IntProtocol in id.matchFlags ==> id.bInterfaceProtocol == intf.bInterfaceProtocol)
  }

  function FieldMatcher(): (m: Matcher) {
    Matcher(
      (d: DeviceDescriptor, id: DeviceId) => MatchDeviceFields(d, id),
      (d: DeviceDescriptor, intf: InterfaceDescriptor, id: DeviceId) => MatchInterfaceFields(d, intf, id))
  }

  /** A `USB_DEVICE(vendor, product)` row matches exactly the devices with
      that vendor and product. */
  lemma DeviceEntryMatchesExactly(vendor: u16, product: u16, info: Mask, d: DeviceDescriptor)
    ensures FieldMatcher().device(d, DeviceEntry(vendor, product, info))
      <==> d.idVendor == vendor && d.idProduct == product
  {
    var id := DeviceEntry(vendor, product, info);
    assert Vendor in id.matchFlags && Product in id.matchFlags;
    assert DevLo !in id.matchFlags && DevHi !in id.matchFlags;
    assert DevClass !in id.matchFlags && DevSubClass !in id.matchFlags && DevProtocol !in id.matchFlags;
  }

  /** A `USB_VENDOR_AND_INTERFACE_INFO(vendor, cl, sc, pr)` row passes the
      device match exactly on that vendor, and accepts exactly the interfaces
      of class `cl`, subclass `sc` and protocol `pr`. */
  lemma VendorInterfaceEntryMatchesExactly(vendor: u16, cl: u8, sc: u8, pr: u8, info: Mask,
                                           d: DeviceDescriptor, intf: InterfaceDescriptor)
    ensures FieldMatcher().device(d, VendorInterfaceEntry(vendor, cl, sc, pr, info)) <==> d.idVendor == vendor
    ensures FieldMatcher().intf(d, intf, VendorInterfaceEntry(vendor, cl, sc, pr, info))
      <==> intf.bInterfaceClass == cl && intf.bInterfaceSubClass == sc && intf.bInterfaceProtocol == pr
  {
    var id := VendorInterfaceEntry(vendor, cl, sc, pr, info);
    assert Vendor in id.matchFlags && Product !in id.matchFlags;
    assert DevLo !in id.matchFlags && DevHi !in id.matchFlags;
    assert DevClass !in id.matchFlags && DevSubClass !in id.matchFlags && DevProtocol !in id.matchFlags;
    assert IntClass in id.matchFlags && IntSubClass in id.matchFlags && IntProtocol in id.matchFlags;
  }
}

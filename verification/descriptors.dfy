/**
 The part of a USB device the quirk engine reads: the standard device,
 configuration and interface descriptors of section 9.6 of the USB 2.0
 specification, arranged the way the host stack keeps them
 (`usb_device` → `usb_host_config` → `usb_interface_cache` → alternate
 settings), plus the two fields the engine writes.
 */
module Descriptors {
  import opened QuirkFlags

  type u8 = x: int | 0 <= x < 0x100
  type u16 = x: int | 0 <= x < 0x1_0000

  /** Standard device descriptor (section 9.6.1 of USB 2.0), the fields a rule can test. */
  datatype DeviceDescriptor = DeviceDescriptor(
    idVendor: u16,
    idProduct: u16,
    bcdDevice: u16,
    bDeviceClass: u8,
    bDeviceSubClass: u8,
    bDeviceProtocol: u8,
    bNumConfigurations: u8)

  /** Standard configuration descriptor (section 9.6.3 of USB 2.0). */
  datatype ConfigDescriptor = ConfigDescriptor(bNumInterfaces: u8, bConfigurationValue: u8)

  /** Standard interface descriptor (section 9.6.5 of USB 2.0). */
  datatype InterfaceDescriptor = InterfaceDescriptor(
    bInterfaceNumber: u8,
    bAlternateSetting: u8,
    bInterfaceClass: u8,
    bInterfaceSubClass: u8,
    bInterfaceProtocol: u8)

  /** `usb_interface_cache`: the alternate settings of one interface;
      `num_altsetting` is `|altsetting|`. */
  datatype InterfaceCache = InterfaceCache(altsetting: seq<InterfaceDescriptor>)

  /** `usb_host_config`: a configuration descriptor and one cache per interface. */
  datatype HostConfig = HostConfig(desc: ConfigDescriptor, intfCache: seq<InterfaceCache>)

  /** The descriptor data of a `usb_device`: what the matchers read. */
  datatype DeviceTree = DeviceTree(descriptor: DeviceDescriptor, config: seq<HostConfig>)

  /** `usb_device`, reduced to its descriptor data and the two fields the
      engine writes, `quirks` and `persist_enabled`. */
  datatype UsbDevice = UsbDevice(tree: DeviceTree, quirks: Mask, persistEnabled: bool)

  /** The configuration tree is parsed: there is a `usb_host_config` for every
      configuration the device descriptor announces, and each holds an
      interface cache for every interface its descriptor announces. The
      interface search indexes exactly these entries. */
  predicate ConfigsReady(dev: DeviceTree) {
    && |dev.config| >= dev.descriptor.bNumConfigurations
    && forall i :: 0 <= i < dev.descriptor.bNumConfigurations ==>
         |dev.config[i].intfCache| >= dev.config[i].desc.bNumInterfaces
  }
}

/** The device descriptor, the composite HID + CDC configuration descriptor
    and the descriptor callbacks the USB stack calls during enumeration. */
module DeviceConfig {
  import opened CTypes
  import ProductId
  import StringDescriptors
  import HidReportDescriptor

  /** The build-time settings the descriptors read from the TinyUSB
      configuration: which class drivers are compiled in, the control endpoint
      size and the HID endpoint buffer size. */
  datatype BuildConfig = BuildConfig(interfaces: ProductId.InterfaceFlags, ep0Size: u8, hidEpBufSize: u16)

  /** The configuration descriptor below holds one CDC and one HID function,
      so the build must compile in exactly those two drivers once each. */
  predicate MatchesDescriptors(cfg: BuildConfig) {
    ProductId.IsBinary(cfg.interfaces) && cfg.interfaces.cdc == 1 && cfg.interfaces.hid == 1
  }

  /** The standard device descriptor (table 9-8 of the USB 2.0 specification). */
  datatype DeviceDescriptor = DeviceDescriptor(
    bLength: u8, bDescriptorType: u8, bcdUSB: u16,
    bDeviceClass: u8, bDeviceSubClass: u8, bDeviceProtocol: u8, bMaxPacketSize0: u8,
    idVendor: u16, idProduct: u16, bcdDevice: u16,
    iManufacturer: u8, iProduct: u8, iSerialNumber: u8, bNumConfigurations: u8)

  const DEVICE_DESCRIPTOR_LENGTH: u8 := 18
  const DESC_TYPE_DEVICE: u8 := 1
  /** Miscellaneous class, common subclass, Interface Association protocol. */
  const CLASS_MISC: u8 := 0xEF
  const MISC_SUBCLASS_COMMON: u8 := 0x02
  const MISC_PROTOCOL_IAD: u8 := 0x01
  const VENDOR_ID: u16 := 0xCAFE

  /** `tud_descriptor_device_cb`: the one static device descriptor. */
  function DeviceCallback(cfg: BuildConfig): (d: DeviceDescriptor)
    ensures d.bLength == DEVICE_DESCRIPTOR_LENGTH && d.bDescriptorType == DESC_TYPE_DEVICE
    ensures d.bcdUSB == 0x0200 && d.bNumConfigurations == 1
    ensures d.idVendor == VENDOR_ID
    ensures ProductId.IsBinary(cfg.interfaces) ==>
              ProductId.InterfacesOf(d.idProduct) == Some(cfg.interfaces)
  {
    var pid := ProductId.ProductIdOf(cfg.interfaces);
    assert ProductId.IsBinary(cfg.interfaces) ==> ProductId.InterfacesOf(pid) == Some(cfg.interfaces) by {
      if ProductId.IsBinary(cfg.interfaces) {
        ProductId.DecodeProductId(cfg.interfaces);
      }
    }
    DeviceDescriptor(DEVICE_DESCRIPTOR_LENGTH, DESC_TYPE_DEVICE, 0x0200,
                     CLASS_MISC, MISC_SUBCLASS_COMMON, MISC_PROTOCOL_IAD, cfg.ep0Size,
                     VENDOR_ID, pid, 0x0100,
                     1, 2, 3, 1)
  }

  /** A build matching the configuration descriptor announces CDC and HID in
      its product ID; with no other class driver the ID is 0x4005. */
  lemma CdcHidProductId(cfg: BuildConfig)
    requires MatchesDescriptors(cfg)
    ensures ProductId.InterfacesOf(DeviceCallback(cfg).idProduct) == Some(cfg.interfaces)
    ensures DeviceCallback(cfg).idProduct % 2 == 1 && (DeviceCallback(cfg).idProduct / 4) % 2 == 1
    ensures cfg.interfaces == ProductId.InterfaceFlags(1, 0, 1, 0, 0) ==> DeviceCallback(cfg).idProduct == 0x4005
  {
  }

  /** `tud_hid_descriptor_report_cb`: the same report descriptor for every
      interface, declaring the button field and the axis field. */
  function ReportDescriptorCallback(itf: u8): (d: seq<HidReportDescriptor.Item>)
    ensures HidReportDescriptor.Parse(d) == Ok([HidReportDescriptor.BUTTON_FIELD, HidReportDescriptor.AXIS_FIELD])
  {
    HidReportDescriptor.ReportDescriptorFields();
    HidReportDescriptor.DESC_HID_REPORT
  }

  /** A class function of the composite configuration, as the
      `TUD_CDC_DESCRIPTOR` and `TUD_HID_DESCRIPTOR` macros describe it. A CDC
      function occupies two interfaces: control `itfNum` and data `itfNum + 1`. */
  datatype ClassFunction =
    | CdcFunction(itfNum: u8, stringIndex: u8, notifEp: u8, notifSize: u16, outEp: u8, inEp: u8, epSize: u16)
    | HidFunction(itfNum: u8, stringIndex: u8, protocol: u8, report: seq<HidReportDescriptor.Item>,
                  inEp: u8, epSize: u16, intervalMs: u8)

  /** The configuration header and its functions. The total length is a sum
      of macro constants and is not part of this model. */
  datatype ConfigDescriptor = ConfigDescriptor(configValue: u8, numInterfaces: u8, stringIndex: u8,
                                               attributes: u8, powerMa: nat, functions: seq<ClassFunction>)

  const ITF_NUM_HID: u8 := 0
  const ITF_NUM_CDC: u8 := 1
  const ITF_NUM_CDC_DATA: u8 := 2
  const ITF_NUM_TOTAL: u8 := 3

  const EPNUM_HID: u8 := 0x81
  const EPNUM_CDC_NOTIF: u8 := 0x82
  const EPNUM_CDC_OUT: u8 := 0x02
  const EPNUM_CDC_IN: u8 := 0x83

  const HID_ITF_PROTOCOL_NONE: u8 := 0
  const HID_POLL_INTERVAL_MS: u8 := 10
  const CDC_STRING_INDEX: u8 := 4
  const HID_STRING_INDEX: u8 := 5

  /** The interfaces a function occupies. */
  function FunctionInterfaces(f: ClassFunction): seq<nat> {
    match f
    case CdcFunction(itf, _, _, _, _, _, _) => [itf, itf + 1]
    case HidFunction(itf, _, _, _, _, _, _) => [itf]
  }

  /** The endpoint addresses a function opens. */
  function FunctionEndpoints(f: ClassFunction): seq<u8> {
    match f
    case CdcFunction(_, _, notif, _, out, inp, _) => [notif, out, inp]
    case HidFunction(_, _, _, _, inp, _, _) => [inp]
  }

  function AllInterfaces(fs: seq<ClassFunction>): seq<nat> {
    if |fs| == 0 then [] else FunctionInterfaces(fs[0]) + AllInterfaces(fs[1..])
  }

  function AllEndpoints(fs: seq<ClassFunction>): seq<u8> {
    if |fs| == 0 then [] else FunctionEndpoints(fs[0]) + AllEndpoints(fs[1..])
  }

  predicate Distinct<T(==)>(s: seq<T>) {
    forall i, j :: 0 <= i < j < |s| ==> s[i] != s[j]
  }

  /** Bit 7 of an endpoint address is the direction: set for IN. */
  predicate IsIn(ep: u8) {
    ep >= 0x80
  }

  /** Interface numbers are exactly 0 .. bNumInterfaces-1, each used once, and
      no endpoint address is opened twice. */
  predicate WellFormed(d: ConfigDescriptor) {
    var itfs := AllInterfaces(d.functions);
    && |itfs| == d.numInterfaces as int
    && Distinct(itfs)
    && (forall k :: 0 <= k < |itfs| ==> itfs[k] < d.numInterfaces as int)
    && Distinct(AllEndpoints(d.functions))
  }

  /** `desc_configuration`, in source order: CDC first, then HID. The CDC
      function takes interfaces 1 and 2 and endpoints 0x82, 0x02, 0x83; the
      HID function takes interface 0 and endpoint 0x81. */
  function DescConfiguration(cfg: BuildConfig): (d: ConfigDescriptor)
    ensures AllInterfaces(d.functions) == [1, 2, 0]
    ensures AllEndpoints(d.functions) == [0x82, 0x02, 0x83, 0x81]
  {
    var fs := [CdcFunction(ITF_NUM_CDC, CDC_STRING_INDEX, EPNUM_CDC_NOTIF, 8, EPNUM_CDC_OUT, EPNUM_CDC_IN, 64),
               HidFunction(ITF_NUM_HID, HID_STRING_INDEX, HID_ITF_PROTOCOL_NONE, HidReportDescriptor.DESC_HID_REPORT,
                           EPNUM_HID, cfg.hidEpBufSize, HID_POLL_INTERVAL_MS)];
    var tail := fs[1..];
    assert |tail| == 1 && tail[0] == fs[1] && tail[1..] == [];
    assert AllInterfaces(tail) == FunctionInterfaces(fs[1]) + [] == [0];
    assert AllEndpoints(tail) == FunctionEndpoints(fs[1]) + [] == [0x81];
    assert FunctionInterfaces(fs[0]) == [1, 2] && FunctionEndpoints(fs[0]) == [0x82, 0x02, 0x83];
    assert AllInterfaces(fs) == [1, 2] + [0] == [1, 2, 0];
    assert AllEndpoints(fs) == [0x82, 0x02, 0x83] + [0x81] == [0x82, 0x02, 0x83, 0x81];
    ConfigDescriptor(1, ITF_NUM_TOTAL, 0, 0x00, 100, fs)
  }

  /** `tud_descriptor_configuration_cb(index)`: the index is ignored and the
      one configuration (value 1) is returned for every index. */
  function ConfigurationCallback(cfg: BuildConfig, index: u8): (d: ConfigDescriptor)
    ensures d.configValue == 1 && d.numInterfaces == ITF_NUM_TOTAL
    ensures WellFormed(d)
    ensures forall k :: 0 <= k < |d.functions| && d.functions[k].HidFunction? ==>
              IsIn(d.functions[k].inEp) && d.functions[k].intervalMs == HID_POLL_INTERVAL_MS
  {
    DescConfiguration(cfg)
  }

  /** Every configuration index gets the same descriptor. */
  lemma ConfigurationIgnoresIndex(cfg: BuildConfig, i: u8, j: u8)
    ensures ConfigurationCallback(cfg, i) == ConfigurationCallback(cfg, j)
  {
  }

  /** The HID function's report descriptor is the one the report callback
      hands out, for any interface number. */
  lemma HidFunctionReport(cfg: BuildConfig, index: u8, itf: u8)
    ensures ConfigurationCallback(cfg, index).functions[1].HidFunction?
    ensures ConfigurationCallback(cfg, index).functions[1].report == ReportDescriptorCallback(itf)
  {
  }

  /** The device descriptor's manufacturer, product and serial string indices
      all resolve: to the manufacturer name, the product name and the board
      serial. */
  lemma DeviceStringsResolve(cfg: BuildConfig, langid: u16, serial: string, buf: seq<u16>)
    requires StringDescriptors.IsBuffer(buf) && StringDescriptors.IsByteString(serial)
    requires StringDescriptors.StrLen(serial) < StringDescriptors.DESC_STR_LEN
    ensures StringDescriptors.DecodeString(
              StringDescriptors.StringCallback(DeviceCallback(cfg).iManufacturer, langid, serial, buf).buffer)
            == Some(StringDescriptors.MANUFACTURER)
    ensures StringDescriptors.DecodeString(
              StringDescriptors.StringCallback(DeviceCallback(cfg).iProduct, langid, serial, buf).buffer)
            == Some(StringDescriptors.PRODUCT)
    ensures StringDescriptors.DecodeString(
              StringDescriptors.StringCallback(DeviceCallback(cfg).iSerialNumber, langid, serial, buf).buffer)
            == Some(serial[..StringDescriptors.StrLen(serial)])
  {
    StringDescriptors.ManufacturerDescriptor(langid, serial, buf);
    StringDescriptors.ProductDescriptor(langid, serial, buf);
    StringDescriptors.SerialDescriptor(langid, serial, buf);
  }

  /** The CDC interface's string index resolves to its name, but the HID
      interface's string index 5 has no case in the string callback, which
      answers NULL. */
  lemma InterfaceStrings(cfg: BuildConfig, index: u8, langid: u16, serial: string, buf: seq<u16>)
    requires StringDescriptors.IsBuffer(buf) && StringDescriptors.IsByteString(serial)
    ensures StringDescriptors.DecodeString(
              StringDescriptors.StringCallback(ConfigurationCallback(cfg, index).functions[0].stringIndex,
                                               langid, serial, buf).buffer)
            == Some(StringDescriptors.CDC_INTERFACE)
    ensures StringDescriptors.StringCallback(ConfigurationCallback(cfg, index).functions[1].stringIndex,
                                             langid, serial, buf).descriptor == None
  {
    StringDescriptors.CdcInterfaceDescriptor(langid, serial, buf);
  }
}

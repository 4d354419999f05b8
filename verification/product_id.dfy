/** The automatic USB product ID: one bit per optional TinyUSB class driver,
    OR-ed into 0x4000, so that each combination of compiled-in interfaces
    enumerates under its own VID/PID pair. */
module ProductId {
  import opened CTypes

  /** The `CFG_TUD_<class>` configuration macros: how many instances of each
      class driver are compiled in. */
  datatype InterfaceFlags = InterfaceFlags(cdc: u8, msc: u8, hid: u8, midi: u8, vendor: u8)

  const PID_BASE: int := 0x4000

  /** Each class is either compiled in once or left out. */
  predicate IsBinary(f: InterfaceFlags) {
    f.cdc <= 1 && f.msc <= 1 && f.hid <= 1 && f.midi <= 1 && f.vendor <= 1
  }

  /** `_PID_MAP(itf, n)`: the flag shifted to bit n, in C `int` arithmetic. */
  function PidMap(flag: u8, n: bv32): (r: bv32)
    requires n < 5
    ensures r >> n == flag as bv32 && r < 0x2000
    ensures flag == 1 ==> r == 1 << n
    ensures flag == 0 ==> r == 0
  {
    (flag as bv32) << n
  }

  /** `USB_PID`, stored into the 16-bit `idProduct` field. */
  function ProductIdOf(f: InterfaceFlags): (pid: u16)
    ensures IsBinary(f) ==> PID_BASE <= pid <= PID_BASE + 0x1F
    ensures IsBinary(f) ==> pid == BitmapSum(f)
  {
    var word := 0x4000 | PidMap(f.cdc, 0) | PidMap(f.msc, 1) | PidMap(f.hid, 2)
                       | PidMap(f.midi, 3) | PidMap(f.vendor, 4);
    (word & 0xFFFF) as int
  }

  /** Reads the interface set back out of a product ID; `None` for an ID the
      bitmap cannot produce. */
  function InterfacesOf(pid: u16): (r: Option<InterfaceFlags>)
    ensures r.Some? <==> PID_BASE <= pid <= PID_BASE + 0x1F
    ensures r.Some? ==> IsBinary(r.value)
  {
    if PID_BASE <= pid <= PID_BASE + 0x1F then
      var q1 := pid / 2;
      var q2 := q1 / 2;
      var q3 := q2 / 2;
      var q4 := q3 / 2;
      Some(InterfaceFlags(pid % 2, q1 % 2, q2 % 2, q3 % 2, q4 % 2))
    else
      None
  }

  /** The bitmap sum of an interface set, as an integer. */
  function BitmapSum(f: InterfaceFlags): int {
    PID_BASE + f.cdc + 2 * f.msc + 4 * f.hid + 8 * f.midi + 16 * f.vendor
  }

  /** Reading back the bitmap sum of a binary set gives the set. */
  lemma DecodeSum(f: InterfaceFlags)
    requires IsBinary(f)
    ensures 0 <= BitmapSum(f) < U16_LIMIT && InterfacesOf(BitmapSum(f)) == Some(f)
  {
    var pid := BitmapSum(f);
    var q1 := 0x2000 + f.msc + 2 * f.hid + 4 * f.midi + 8 * f.vendor;
    var q2 := 0x1000 + f.hid + 2 * f.midi + 4 * f.vendor;
    var q3 := 0x800 + f.midi + 2 * f.vendor;
    var q4 := 0x400 + f.vendor;
    assert pid == f.cdc + 2 * q1 && pid / 2 == q1;
    assert q1 == f.msc + 2 * q2 && q1 / 2 == q2;
    assert q2 == f.hid + 2 * q3 && q2 / 2 == q3;
    assert q3 == f.midi + 2 * q4 && q3 / 2 == q4;
  }

  /** Decoding the product ID of a binary interface set gives the set back. */
  lemma DecodeProductId(f: InterfaceFlags)
    requires IsBinary(f)
    ensures InterfacesOf(ProductIdOf(f)) == Some(f)
  {
    DecodeSum(f);
  }

  /** Every ID of the bitmap range is the bitmap sum of the set it decodes to. */
  lemma EncodeSum(pid: u16)
    requires PID_BASE <= pid <= PID_BASE + 0x1F
    ensures BitmapSum(InterfacesOf(pid).value) == pid
  {
    var q1 := pid / 2;
    var q2 := q1 / 2;
    var q3 := q2 / 2;
    var q4 := q3 / 2;
    assert q4 / 2 == 0x200;
  }

  /** Every product ID of the bitmap range is the ID of exactly the interface
      set it decodes to. */
  lemma EncodeInterfaces(pid: u16)
    requires PID_BASE <= pid <= PID_BASE + 0x1F
    ensures ProductIdOf(InterfacesOf(pid).value) == pid
  {
    EncodeSum(pid);
  }

  /** Distinct interface sets never share a product ID. */
  lemma ProductIdInjective(f: InterfaceFlags, g: InterfaceFlags)
    requires IsBinary(f) && IsBinary(g)
    ensures ProductIdOf(f) == ProductIdOf(g) <==> f == g
  {
    if ProductIdOf(f) == ProductIdOf(g) {
      DecodeProductId(f);
      DecodeProductId(g);
    }
  }

  /** The bitmap relies on every flag being 0 or 1: two CDC instances collide
      with one mass-storage instance. */
  lemma CountsAboveOneCollide()
    ensures ProductIdOf(InterfaceFlags(2, 0, 1, 0, 0)) == ProductIdOf(InterfaceFlags(0, 1, 1, 0, 0))
  {
  }
}

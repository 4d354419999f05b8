/** Agreement between the HID report descriptor, `struct report` and the
    values `hid_task` puts into it. */
module LayoutAgreement {
  import opened CTypes
  import opened HidReportDescriptor
  import HidTask
  import DeviceConfig

  /** The input bits declared for one report ID, in declaration order. */
  function InputBits(fields: seq<InputField>, id: nat): nat
    decreases |fields|
  {
    if |fields| == 0 then 0
    else (if fields[0].reportId == id then fields[0].count * fields[0].size else 0) + InputBits(fields[1..], id)
  }

  /** The fields the report descriptor declares, whatever interface asks. */
  function DeclaredFields(itf: u8): (fs: seq<InputField>)
    ensures Parse(DeviceConfig.ReportDescriptorCallback(itf)) == Ok(fs)
    ensures |fs| == 2
  {
    match Parse(DeviceConfig.ReportDescriptorCallback(itf))
    case Ok(fs) => fs
    case Err(_) => assert false; []
  }

  /** The declared input bits for report ID 1 are 32 x 1 + 4 x 16 = 96, the
      size of `struct report` in bits. */
  lemma ReportSizeMatchesStruct(itf: u8)
    ensures InputBits(DeclaredFields(itf), HidTask.REPORT_ID) == 8 * HidTask.REPORT_BYTES == 96
  {
    var fs := DeclaredFields(itf);
    assert fs == [BUTTON_FIELD, AXIS_FIELD];
    assert fs[1..][1..] == [];
    assert InputBits(fs[1..], HidTask.REPORT_ID) == 64;
  }

  /** Field by field: the button field fills the `uint32_t buttons` member,
      and the axis field has one 16-bit entry per `int16_t` slider; each
      field names one usage per entry, so the four axis usages match the
      axis report count. */
  lemma FieldsMatchMembers(itf: u8)
    ensures DeclaredFields(itf)[0].count * DeclaredFields(itf)[0].size == 8 * HidTask.BUTTONS_BYTES
    ensures DeclaredFields(itf)[1].count == HidTask.SLIDER_COUNT
    ensures DeclaredFields(itf)[1].size == 8 * HidTask.SLIDER_BYTES
    ensures forall k :: 0 <= k < 2 ==> |DeclaredFields(itf)[k].usages| == DeclaredFields(itf)[k].count
    ensures forall k :: 0 <= k < 2 ==> DeclaredFields(itf)[k].reportId == HidTask.REPORT_ID
  {
    assert DeclaredFields(itf) == [BUTTON_FIELD, AXIS_FIELD];
  }

  /** Every slider value the publisher produces lies in the axis field's
      declared logical range. */
  lemma SlidersWithinLogicalRange(itf: u8, now: u32)
    ensures forall s :: 0 <= s < |HidTask.Sample(now).sliders| ==>
              DeclaredFields(itf)[1].logicalMin <= HidTask.Sample(now).sliders[s] <= DeclaredFields(itf)[1].logicalMax
  {
    assert DeclaredFields(itf) == [BUTTON_FIELD, AXIS_FIELD];
  }

  /** A pressed bit of `buttons` is always one of the declared button usages:
      only bits 0 to 15 are ever set, and bit k stands for Button k + 1. */
  lemma ButtonsWithinUsages(itf: u8, now: u32)
    ensures forall k: nat :: Bit(HidTask.Sample(now).buttons, k) == 1 ==>
              k < 16 && UsageRef(PAGE_BUTTON, k + 1) in DeclaredFields(itf)[0].usages
  {
    assert DeclaredFields(itf) == [BUTTON_FIELD, AXIS_FIELD];
    var pos := (now / 2000) % 16;
    forall k: nat | Bit(HidTask.Sample(now).buttons, k) == 1
      ensures k < 16 && UsageRef(PAGE_BUTTON, k + 1) in BUTTON_FIELD.usages
    {
      if (now / 1000) % 2 == 1 {
        BitOfPow2(pos, k);
      } else {
        BitOfZero(k);
      }
      assert BUTTON_FIELD.usages[k] == UsageRef(PAGE_BUTTON, k + 1);
    }
  }
}

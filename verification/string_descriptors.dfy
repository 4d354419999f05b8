/** USB string descriptors (section 9.6.7 of the USB 2.0 specification): the
    ASCII-to-UTF-16 encoder `str_to_descr_str` and the dispatcher
    `tud_descriptor_string_cb` that fills one static 32-unit buffer. */
module StringDescriptors {
  import opened CTypes

  /** Descriptor type STRING (table 9-5 of the USB 2.0 specification). */
  const TUSB_DESC_STRING: u8 := 3

  /** Number of 16-bit units in the static buffer `desc_str`. */
  const DESC_STR_LEN: u8 := 32

  /** A descriptor buffer as the dispatcher keeps it between calls. */
  predicate IsBuffer(buf: seq<u16>) {
    |buf| == DESC_STR_LEN as int
  }

  /** Every character of a C `char` array fits in one byte. */
  predicate IsByteString(s: string) {
    forall i :: 0 <= i < |s| ==> s[i] as int < 256
  }

  /** `strlen`: the characters before the first NUL (or all of them when the
      sequence holds no NUL). */
  function StrLen(s: string): (n: nat)
    ensures n <= |s|
    ensures forall i :: 0 <= i < n ==> s[i] != '\0'
    ensures n < |s| ==> s[n] == '\0'
  {
    if |s| == 0 || s[0] == '\0' then 0 else 1 + StrLen(s[1..])
  }

  /** A string without NUL has its full length as `strlen`. */
  lemma {:induction false} StrLenWithoutNul(s: string)
    requires forall i :: 0 <= i < |s| ==> s[i] != '\0'
    ensures StrLen(s) == |s|
  {
    if |s| > 0 {
      StrLenWithoutNul(s[1..]);
    }
  }

  /** The number of characters `str_to_descr_str` copies: `strlen` truncated
      to `uint8_t`, then capped at `maxlen - 1`. */
  function EncodedLen(src: string, maxlen: u8): (len: u8)
    requires 1 <= maxlen
    ensures len < maxlen
    ensures len <= StrLen(src)
    ensures StrLen(src) < maxlen ==> len == StrLen(src)
    ensures maxlen <= StrLen(src) < U8_LIMIT ==> len == maxlen - 1
  {
    var len: u8 := StrLen(src) % U8_LIMIT;
    if len >= maxlen then maxlen - 1 else len
  }

  /** Low byte of a header word: bLength, the descriptor size in bytes. */
  function HeaderLength(w: u16): nat {
    w % 0x100
  }

  /** High byte of a header word: bDescriptorType. */
  function HeaderType(w: u16): nat {
    w / 0x100
  }

  /** `a | b` on non-negative C `int` operands, bit by bit. */
  function BitOr(a: nat, b: nat): (r: nat)
    ensures r <= a + b
    decreases a + b
  {
    if a == 0 then b
    else if b == 0 then a
    else 2 * BitOr(a / 2, b / 2) + (if a % 2 == 1 || b % 2 == 1 then 1 else 0)
  }

  /** OR-ing a value below 2^k into a multiple of 2^k adds it. */
  lemma {:induction false} BitOrDisjoint(hi: nat, lo: nat, k: nat)
    requires lo < Pow2(k)
    ensures BitOr(hi * Pow2(k), lo) == hi * Pow2(k) + lo
  {
    if k == 0 || hi == 0 || lo == 0 {
    } else {
      var a := hi * Pow2(k);
      assert a == 2 * (hi * Pow2(k - 1));
      assert a / 2 == hi * Pow2(k - 1) && a % 2 == 0;
      BitOrDisjoint(hi, lo / 2, k - 1);
    }
  }

  /** The header word `(TUSB_DESC_STRING << 8) | (2*len + 2)`, truncated to the
      16-bit buffer entry. */
  function Header(len: u8): (w: u16)
    ensures len <= 126 ==> HeaderLength(w) == 2 * len + 2 && HeaderType(w) == TUSB_DESC_STRING
  {
    var w := BitOr(TUSB_DESC_STRING * 0x100, 2 * len + 2) % U16_LIMIT;
    if len <= 126 then
      assert Pow2(8) == 0x100;
      BitOrDisjoint(TUSB_DESC_STRING, 2 * len + 2, 8);
      w
    else
      w
  }

  /** A byte character widened to one UTF-16 code unit (zero extension: `char`
      is unsigned on the ARM target). */
  function Widen(c: char): (u: u16)
    requires c as int < 256
    ensures u == c as int
  {
    c as int
  }

  /** The units the encoder writes: the header followed by the copied
      characters. */
  function Encode(src: string, maxlen: u8): (d: seq<u16>)
    requires 1 <= maxlen && IsByteString(src)
    ensures |d| == EncodedLen(src, maxlen) + 1 <= maxlen
  {
    var len := EncodedLen(src, maxlen);
    [Header(len)] + seq(len, i requires 0 <= i < len => Widen(src[i]))
  }

  /** The destination buffer after `str_to_descr_str(src, dest, maxlen)`. */
  function Write(src: string, dest: seq<u16>, maxlen: u8): (d: seq<u16>)
    requires 1 <= maxlen && maxlen as int <= |dest| && IsByteString(src)
    ensures |d| == |dest|
    ensures d[0] == Header(EncodedLen(src, maxlen))
    ensures forall i :: 0 <= i < EncodedLen(src, maxlen) ==> d[i + 1] as int == src[i] as int
    ensures forall j :: EncodedLen(src, maxlen) < j < |dest| ==> d[j] == dest[j]
  {
    Encode(src, maxlen) + dest[EncodedLen(src, maxlen) + 1..]
  }

  /** `str_to_descr_str`: copies the characters one by one, then writes the
      header. The C function is declared to return `uint8_t` but has no
      `return`; the model returns only the buffer. */
  method StrToDescrStr(src: string, dest: seq<u16>, maxlen: u8) returns (d: seq<u16>)
    requires 1 <= maxlen && maxlen as int <= |dest| && IsByteString(src)
    ensures d == Write(src, dest, maxlen)
  {
    var len: u8 := StrLen(src) % U8_LIMIT;
    if len >= maxlen {
      len := maxlen - 1;
    }
    d := dest;
    var i: u8 := 0;
    while i < len
      invariant i <= len
      invariant |d| == |dest|
      invariant d[0] == dest[0]
      invariant forall k :: 0 <= k < i ==> d[k + 1] == Widen(src[k])
      invariant forall k :: i < k < |dest| ==> d[k] == dest[k]
    {
      d := d[i + 1 := Widen(src[i])];
      i := i + 1;
    }
    d := d[0 := Header(len)];
    assert len == EncodedLen(src, maxlen);
    ghost var w := Write(src, dest, maxlen);
    assert forall k :: 0 <= k < |d| ==> d[k] == w[k];
  }

  /** Decodes a string descriptor back to its characters: `None` unless the
      header says STRING, the byte length is even, at least 2 and within the
      units given, and no unit is a UTF-16 surrogate. */
  function DecodeString(units: seq<u16>): (r: Option<string>)
    ensures r.Some? ==> |units| > 0 && 2 * |r.value| + 2 == HeaderLength(units[0])
  {
    if |units| == 0 || HeaderType(units[0]) != TUSB_DESC_STRING then None
    else
      var bytes := HeaderLength(units[0]);
      if bytes < 2 || bytes % 2 != 0 || bytes / 2 > |units| then None
      else
        var body := units[1..bytes / 2];
        if exists k :: 0 <= k < |body| && 0xD800 <= body[k] as int < 0xE000 then None
        else Some(seq(|body|, k requires 0 <= k < |body| && !(0xD800 <= body[k] as int < 0xE000) =>
                             (body[k] as int) as char))
  }

  /** Round trip: decoding the buffer `str_to_descr_str` leaves gives back the
      copied prefix of the source, whatever the buffer held before. */
  lemma DecodeWrite(src: string, dest: seq<u16>, maxlen: u8)
    requires 1 <= maxlen <= 127 && maxlen as int <= |dest| && IsByteString(src)
    ensures DecodeString(Write(src, dest, maxlen)) == Some(src[..EncodedLen(src, maxlen)])
  {
    var len := EncodedLen(src, maxlen);
    var d := Write(src, dest, maxlen);
    assert HeaderLength(d[0]) == 2 * len + 2 && HeaderType(d[0]) == 3;
    var body := d[1..len + 1];
    assert forall k :: 0 <= k < |body| ==> body[k] as int == src[k] as int;
    var r := DecodeString(d);
    assert r.Some?;
    assert r.value == src[..len];
  }

  /** A source no longer than the capacity minus one is encoded whole. */
  lemma EncodeShortString(src: string, dest: seq<u16>, maxlen: u8)
    requires 1 <= maxlen <= 127 && maxlen as int <= |dest| && IsByteString(src)
    requires StrLen(src) < maxlen
    ensures DecodeString(Write(src, dest, maxlen)) == Some(src[..StrLen(src)])
    ensures HeaderLength(Write(src, dest, maxlen)[0]) == 2 * StrLen(src) + 2
  {
    DecodeWrite(src, dest, maxlen);
  }

  /** A source of at least `maxlen` characters is cut to `maxlen - 1`: the
      descriptor is exactly `2 * (maxlen - 1) + 2` bytes and never spills out
      of the buffer. */
  lemma EncodeTruncates(src: string, dest: seq<u16>, maxlen: u8)
    requires 1 <= maxlen <= 127 && maxlen as int <= |dest| && IsByteString(src)
    requires maxlen <= StrLen(src) < U8_LIMIT
    ensures DecodeString(Write(src, dest, maxlen)) == Some(src[..maxlen - 1])
    ensures HeaderLength(Write(src, dest, maxlen)[0]) == 2 * (maxlen - 1) + 2 <= 2 * maxlen
  {
    DecodeWrite(src, dest, maxlen);
  }

  /** As written, `strlen` is stored in a `uint8_t`: a 256-character source
      encodes as the empty string instead of being truncated. */
  lemma LongSourceWraps(src: string, dest: seq<u16>)
    requires |dest| >= DESC_STR_LEN as int && IsByteString(src)
    requires StrLen(src) == 256
    ensures DecodeString(Write(src, dest, DESC_STR_LEN)) == Some("")
  {
    DecodeWrite(src, dest, DESC_STR_LEN);
  }

  /** The fixed strings of the string table. */
  const MANUFACTURER: string := "HasseHans Fabrik"
  const PRODUCT: string := "PicoJoy"
  const CDC_INTERFACE: string := "PicoJoy Serial Control"

  /** The language word the firmware stores for index 0. */
  const LANGID_AS_WRITTEN: u16 := 0x0904

  /** English (United States) in the USB language identifier table. */
  const LANGID_ENGLISH_US: u16 := 0x0409

  /** What the callback hands to the USB stack: the static buffer (`None` is
      NULL), and the buffer contents the next call starts from. */
  datatype StringReply = StringReply(descriptor: Option<seq<u16>>, buffer: seq<u16>)

  /** Index 0: one language word after a 4-byte header. */
  function LanguageTable(langWord: u16, buf: seq<u16>): (d: seq<u16>)
    requires IsBuffer(buf)
    ensures IsBuffer(d)
    ensures d[0] == 0x0304 && d[1] == langWord && d[2..] == buf[2..]
  {
    assert Header(1) == 0x0304 by {
      assert Pow2(8) == 0x100;
      BitOrDisjoint(TUSB_DESC_STRING, 4, 8);
    }
    buf[1 := langWord][0 := Header(1)]
  }

  /** `tud_descriptor_string_cb(index, langid)`. `serial` is the board's
      unique-ID string; `buf` is what `desc_str` held before the call. The
      language ID the host asks for is ignored. */
  function StringCallback(index: u8, langid: u16, serial: string, buf: seq<u16>): (r: StringReply)
    requires IsBuffer(buf) && IsByteString(serial)
    ensures IsBuffer(r.buffer)
    ensures r.descriptor.Some? <==> index <= 4
    ensures r.descriptor.Some? ==> r.descriptor.value == r.buffer
    ensures r.descriptor.None? ==> r.buffer == buf
    ensures r.descriptor.Some? ==> 2 <= HeaderLength(r.buffer[0]) <= 2 * DESC_STR_LEN
    ensures forall j :: HeaderLength(r.buffer[0]) / 2 <= j < DESC_STR_LEN as int ==> r.buffer[j] == buf[j]
  {
    if index == 0 then Reply(LanguageTable(LANGID_AS_WRITTEN, buf))
    else
      match StringSource(index, serial)
      case None => StringReply(None, buf)
      case Some(src) => WriteReply(src, buf)
  }

  /** The source string the switch of `tud_descriptor_string_cb` hands to
      `str_to_descr_str` for indices 1 to 4: manufacturer, product, serial,
      CDC interface; NULL for every other index. */
  function StringSource(index: u8, serial: string): (r: Option<string>)
    requires IsByteString(serial)
    ensures r.Some? <==> 1 <= index <= 4
    ensures r.Some? ==> IsByteString(r.value)
  {
    FixedStringsArePlain();
    match index
    case 1 => Some(MANUFACTURER)
    case 2 => Some(PRODUCT)
    case 3 => Some(serial)
    case 4 => Some(CDC_INTERFACE)
    case _ => None
  }

  /** A non-NULL reply: the buffer is both returned and kept. */
  function Reply(d: seq<u16>): StringReply {
    StringReply(Some(d), d)
  }

  /** The reply for a string index: `str_to_descr_str(src, desc_str, 32)`. */
  function WriteReply(src: string, buf: seq<u16>): (r: StringReply)
    requires IsBuffer(buf) && IsByteString(src)
    ensures IsBuffer(r.buffer) && r.descriptor == Some(r.buffer)
    ensures 2 <= HeaderLength(r.buffer[0]) <= 2 * DESC_STR_LEN
    ensures forall j :: HeaderLength(r.buffer[0]) / 2 <= j < DESC_STR_LEN as int ==> r.buffer[j] == buf[j]
  {
    Reply(Write(src, buf, DESC_STR_LEN))
  }

  /** Index 0 yields the header 0x0304 followed by the word 0x0904. */
  lemma LanguageDescriptor(langid: u16, serial: string, buf: seq<u16>)
    requires IsBuffer(buf) && IsByteString(serial)
    ensures StringCallback(0, langid, serial, buf).descriptor.Some?
    ensures StringCallback(0, langid, serial, buf).buffer[..2] == [0x0304, 0x0904]
  {
  }

  /** Index 1 yields the encoding of the manufacturer name. */
  lemma ManufacturerDescriptor(langid: u16, serial: string, buf: seq<u16>)
    requires IsBuffer(buf) && IsByteString(serial)
    ensures DecodeString(StringCallback(1, langid, serial, buf).buffer) == Some(MANUFACTURER)
  {
    FixedStringsArePlain();
    FixedDescriptor(1, MANUFACTURER, langid, serial, buf);
  }

  /** Index 2 yields the encoding of the product name. */
  lemma ProductDescriptor(langid: u16, serial: string, buf: seq<u16>)
    requires IsBuffer(buf) && IsByteString(serial)
    ensures DecodeString(StringCallback(2, langid, serial, buf).buffer) == Some(PRODUCT)
  {
    FixedStringsArePlain();
    FixedDescriptor(2, PRODUCT, langid, serial, buf);
  }

  /** Index 4 yields the encoding of the CDC interface name. */
  lemma CdcInterfaceDescriptor(langid: u16, serial: string, buf: seq<u16>)
    requires IsBuffer(buf) && IsByteString(serial)
    ensures DecodeString(StringCallback(4, langid, serial, buf).buffer) == Some(CDC_INTERFACE)
  {
    FixedStringsArePlain();
    FixedDescriptor(4, CDC_INTERFACE, langid, serial, buf);
  }

  /** A fixed string of indices 1 to 4 comes back whole. */
  lemma FixedDescriptor(index: u8, s: string, langid: u16, serial: string, buf: seq<u16>)
    requires IsBuffer(buf) && IsByteString(serial)
    requires StringSource(index, serial) == Some(s) && IsPlainText(s) && |s| < DESC_STR_LEN as int
    ensures DecodeString(StringCallback(index, langid, serial, buf).buffer) == Some(s)
  {
    assert StringCallback(index, langid, serial, buf) == WriteReply(s, buf);
    EncodeWholeString(s, buf);
  }

  /** A C string literal: one-byte characters, none of them NUL. */
  predicate IsPlainText(s: string) {
    forall i :: 0 <= i < |s| ==> 0 < s[i] as int < 256
  }

  /** The fixed strings are plain text and fit the buffer. */
  lemma FixedStringsArePlain()
    ensures IsPlainText(MANUFACTURER) && IsByteString(MANUFACTURER) && |MANUFACTURER| == 16
    ensures IsPlainText(PRODUCT) && IsByteString(PRODUCT) && |PRODUCT| == 7
    ensures IsPlainText(CDC_INTERFACE) && IsByteString(CDC_INTERFACE) && |CDC_INTERFACE| == 22
  {
  }

  /** A plain string of at most 31 characters comes back whole. */
  lemma EncodeWholeString(s: string, buf: seq<u16>)
    requires IsBuffer(buf) && IsPlainText(s) && |s| < DESC_STR_LEN as int
    ensures DecodeString(WriteReply(s, buf).buffer) == Some(s)
  {
    StrLenWithoutNul(s);
    EncodeShortString(s, buf, DESC_STR_LEN);
    assert s[..StrLen(s)] == s;
  }

  /** Index 3 yields the board serial, cut to 31 characters. */
  lemma SerialDescriptor(langid: u16, serial: string, buf: seq<u16>)
    requires IsBuffer(buf) && IsByteString(serial)
    ensures StrLen(serial) < DESC_STR_LEN ==>
              DecodeString(StringCallback(3, langid, serial, buf).buffer) == Some(serial[..StrLen(serial)])
    ensures DESC_STR_LEN <= StrLen(serial) < U8_LIMIT ==>
              DecodeString(StringCallback(3, langid, serial, buf).buffer) == Some(serial[..DESC_STR_LEN - 1])
  {
    DecodeWrite(serial, buf, DESC_STR_LEN);
  }

  /** As written, the language word is 0x0904, the byte-swapped form of the
      English (United States) identifier 0x0409. */
  lemma LanguageWordSwapped(langid: u16, serial: string, buf: seq<u16>)
    requires IsBuffer(buf) && IsByteString(serial)
    ensures StringCallback(0, langid, serial, buf).buffer[1] != LANGID_ENGLISH_US
    ensures StringCallback(0, langid, serial, buf).buffer[1]
            == (LANGID_ENGLISH_US % 0x100) * 0x100 + LANGID_ENGLISH_US / 0x100
  {
  }

  /** The string callback with the language word the comment announces
      (English) and every other index as written. */
  function StringCallbackIntended(index: u8, langid: u16, serial: string, buf: seq<u16>): (r: StringReply)
    requires IsBuffer(buf) && IsByteString(serial)
    ensures r.descriptor.Some? <==> index <= 4
    ensures index == 0 ==> IsBuffer(r.buffer) && r.buffer[..2] == [0x0304, LANGID_ENGLISH_US]
    ensures index != 0 ==> r == StringCallback(index, langid, serial, buf)
  {
    if index == 0 then Reply(LanguageTable(LANGID_ENGLISH_US, buf))
    else StringCallback(index, langid, serial, buf)
  }
}

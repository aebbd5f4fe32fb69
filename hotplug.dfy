/**
 * The hot-plug relevance check: whether a udev event announces one of the
 * configured mice.
 */
module Hotplug {
  import opened Wrappers
  import opened Ints
  import opened Config

  /** The kinds of udev event. */
  datatype EventType = Add | Change | Remove | Bind | Unbind | Unknown

  /** A udev event: its kind and the sysfs attributes of its device, as raw bytes. */
  datatype UdevEvent = UdevEvent(eventType: EventType, attributes: map<string, seq<u8>>)

  datatype UdevEventError = MissingVendor | InvalidVendor | MissingProduct | InvalidProduct

  const VENDOR_ATTRIBUTE: string := "idVendor"
  const PRODUCT_ATTRIBUTE: string := "idProduct"

  predicate IsContinuation(b: u8)
  {
    0x80 <= b <= 0xBF
  }

  /** Well-formed UTF-8: the byte sequences of Table 3-7 of the Unicode Standard. */
  predicate IsUtf8(s: seq<u8>)
    decreases |s|
  {
    if s == [] then true
    else if s[0] < 0x80 then IsUtf8(s[1..])
    else if 0xC2 <= s[0] <= 0xDF then
      |s| >= 2 && IsContinuation(s[1]) && IsUtf8(s[2..])
    else if s[0] == 0xE0 then
      |s| >= 3 && 0xA0 <= s[1] <= 0xBF && IsContinuation(s[2]) && IsUtf8(s[3..])
    else if 0xE1 <= s[0] <= 0xEC || 0xEE <= s[0] <= 0xEF then
      |s| >= 3 && IsContinuation(s[1]) && IsContinuation(s[2]) && IsUtf8(s[3..])
    else if s[0] == 0xED then
      |s| >= 3 && 0x80 <= s[1] <= 0x9F && IsContinuation(s[2]) && IsUtf8(s[3..])
    else if s[0] == 0xF0 then
      |s| >= 4 && 0x90 <= s[1] <= 0xBF && IsContinuation(s[2]) && IsContinuation(s[3]) && IsUtf8(s[4..])
    else if 0xF1 <= s[0] <= 0xF3 then
      |s| >= 4 && IsContinuation(s[1]) && IsContinuation(s[2]) && IsContinuation(s[3]) && IsUtf8(s[4..])
    else if s[0] == 0xF4 then
      |s| >= 4 && 0x80 <= s[1] <= 0x8F && IsContinuation(s[2]) && IsContinuation(s[3]) && IsUtf8(s[4..])
    else false
  }

  /** ASCII text is well-formed UTF-8. */
  lemma {:induction false} AsciiIsUtf8(s: seq<u8>)
    requires forall i :: 0 <= i < |s| ==> s[i] < 0x80
    ensures IsUtf8(s)
  {
    if s != [] {
      AsciiIsUtf8(s[1..]);
    }
  }

  /** `OsStr::to_str`: the text when its bytes are valid UTF-8 (a `str` is its bytes here). */
  function ToStr(raw: seq<u8>): Option<seq<u8>>
  {
    if IsUtf8(raw) then Some(raw) else None
  }

  /**
   * An id attribute as the event handler reads it: as UTF-8 text, then as four
   * hex digits. The UTF-8 check never changes the outcome, since hex digits
   * are ASCII.
   */
  function ParseIdAttribute(raw: seq<u8>): (r: Option<u16>)
    ensures r == DecodeId(raw)
  {
    match ToStr(raw)
    case None =>
      if DecodeId(raw).Some? then AsciiIsUtf8(raw); None else None
    case Some(text) => DecodeId(text)
  }

  /** Whether some profile has this vendor and product id; the endpoint plays no part. */
  function AnyProfileMatches(mice: ProfileTable, vendor: u16, product: u16): (r: bool)
    ensures r <==> exists i :: 0 <= i < |mice| && mice[i].1.vendor == vendor && mice[i].1.product == product
  {
    if mice == [] then false
    else if mice[0].1.vendor == vendor && mice[0].1.product == product then true
    else
      var r := AnyProfileMatches(mice[1..], vendor, product);
      assert forall i :: 1 <= i < |mice| ==> mice[i] == mice[1..][i - 1];
      r
  }

  /** A bind event whose well-formed ids equal those of some profile. */
  ghost predicate Announces(event: UdevEvent, mice: ProfileTable)
  {
    event.eventType == Bind &&
    VENDOR_ATTRIBUTE in event.attributes && PRODUCT_ATTRIBUTE in event.attributes &&
    var vendor, product := DecodeId(event.attributes[VENDOR_ATTRIBUTE]), DecodeId(event.attributes[PRODUCT_ATTRIBUTE]);
    vendor.Some? && product.Some? &&
    exists i :: 0 <= i < |mice| && mice[i].1.vendor == vendor.value && mice[i].1.product == product.value
  }

  /**
   * `process_udev_event`: events other than bind are irrelevant; a bind event's
   * vendor id is checked before its product id, presence before format; with
   * both ids well formed the event is relevant exactly when some profile has
   * both ids.
   */
  function ProcessUdevEvent(event: UdevEvent, mice: ProfileTable): (r: Result<bool, UdevEventError>)
    ensures event.eventType != Bind ==> r == Ok(false)
    ensures r == Err(MissingVendor) <==> event.eventType == Bind && VENDOR_ATTRIBUTE !in event.attributes
    ensures r == Err(InvalidVendor) <==>
      event.eventType == Bind && VENDOR_ATTRIBUTE in event.attributes && DecodeId(event.attributes[VENDOR_ATTRIBUTE]).None?
    ensures r == Err(MissingProduct) <==>
      event.eventType == Bind && VENDOR_ATTRIBUTE in event.attributes && DecodeId(event.attributes[VENDOR_ATTRIBUTE]).Some? &&
      PRODUCT_ATTRIBUTE !in event.attributes
    ensures r == Err(InvalidProduct) <==>
      event.eventType == Bind && VENDOR_ATTRIBUTE in event.attributes && DecodeId(event.attributes[VENDOR_ATTRIBUTE]).Some? &&
      PRODUCT_ATTRIBUTE in event.attributes && DecodeId(event.attributes[PRODUCT_ATTRIBUTE]).None?
    ensures r == Ok(true) <==> Announces(event, mice)
  {
    if event.eventType == Bind then
      if VENDOR_ATTRIBUTE !in event.attributes then Err(MissingVendor)
      else match ParseIdAttribute(event.attributes[VENDOR_ATTRIBUTE])
        case None => Err(InvalidVendor)
        case Some(vendor) =>
          if PRODUCT_ATTRIBUTE !in event.attributes then Err(MissingProduct)
          else match ParseIdAttribute(event.attributes[PRODUCT_ATTRIBUTE])
            case None => Err(InvalidProduct)
            case Some(product) => Ok(AnyProfileMatches(mice, vendor, product))
    else
      Ok(false)
  }

  /** Two tables that agree on every profile's vendor and product id give every event the same verdict. */
  lemma EndpointIgnored(event: UdevEvent, mice: ProfileTable, others: ProfileTable)
    requires |mice| == |others|
    requires forall i :: 0 <= i < |mice| ==> mice[i].1.vendor == others[i].1.vendor && mice[i].1.product == others[i].1.product
    ensures ProcessUdevEvent(event, mice) == ProcessUdevEvent(event, others)
  {
  }

  /** A vendor-id error hides whatever the product id is. */
  lemma VendorCheckedFirst(event: UdevEvent, mice: ProfileTable, product: seq<u8>)
    requires ProcessUdevEvent(event, mice) in {Err(MissingVendor), Err(InvalidVendor)}
    ensures ProcessUdevEvent(event.(attributes := event.attributes[PRODUCT_ATTRIBUTE := product]), mice)
         == ProcessUdevEvent(event, mice)
  {
  }
}

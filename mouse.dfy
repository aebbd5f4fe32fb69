/**
 * The battery protocol of the SteelSeries Aerox 9 mouse, in its wired and its
 * wireless variant, and the registry that binds a configured model name to a
 * driver for an opened HID device.
 */
module Mouse {
  import opened Wrappers
  import opened Ints

  const OP_BATTERY_REQUEST: bv8 := 0x92
  const OP_BATTERY_RESPONSE_LEN: nat := 2
  const FLAG_BATTERY_CHARGING: bv8 := 0x80
  const FLAG_WIRELESS: bv8 := 0x40

  const WIRED_MODEL: string := "steelseries_aerox_9_wired"
  const WIRELESS_MODEL: string := "steelseries_aerox_9_wireless"

  /** One battery reading. */
  datatype BatteryStatus = BatteryStatus(isCharging: bool, percent: u16)

  /** `u16::checked_sub`: none when the difference would be negative. */
  function CheckedSub(a: u16, b: u16): Option<u16>
  {
    if b <= a then Some(a - b) else None
  }

  /**
   * Decodes byte 1 of a battery response. Bit 7 is the charging flag and the
   * low seven bits are the level; level 0 (the subtraction underflows) and a
   * computed 630 % carry no reading. The percent is not clamped to 100.
   */
  function BatteryStatusFromResponse(data: bv8): Option<BatteryStatus>
  {
    var level := (data & !FLAG_BATTERY_CHARGING) as int;
    assert level == data as int % 128;
    match CheckedSub(level, 1)
    case None => None
    case Some(raw) =>
      var percent := raw * 5;
      if percent == 630 then None
      else Some(BatteryStatus(data & FLAG_BATTERY_CHARGING != 0, percent))
  }

  /**
   * What a response byte means: the reading is missing exactly for levels 0
   * and 127; otherwise the percent is five times the level less one, and the
   * mouse charges exactly when bit 7 is set.
   */
  lemma DecodeResponse(data: bv8)
    ensures var r := BatteryStatusFromResponse(data);
      (r.None? <==> data as int % 128 == 0 || data as int % 128 == 127) &&
      (r.Some? ==> r.value.percent == (data as int % 128 - 1) * 5) &&
      (r.Some? ==> (r.value.isCharging <==> data as int >= 128))
  {
  }

  /** Exactly four response bytes carry no reading: level 0 and level 127, each with and without the charging bit. */
  lemma NoReadingBytes(data: bv8)
    ensures BatteryStatusFromResponse(data).None? <==> data in {0x00, 0x7F, 0x80, 0xFF}
  {
  }

  /** A reading's percent is a multiple of 5 between 0 and 625 and never the 630 sentinel. */
  lemma ReadingPercentRange(data: bv8)
    requires BatteryStatusFromResponse(data).Some?
    ensures var p := BatteryStatusFromResponse(data).value.percent;
      p % 5 == 0 && 0 <= p <= 625 && p != 630
  {
  }

  /** Toggling the charging bit flips the charging flag of a reading and changes nothing else. */
  lemma ChargingBitOnlyFlipsCharging(data: bv8)
    ensures var a, b := BatteryStatusFromResponse(data), BatteryStatusFromResponse(data ^ FLAG_BATTERY_CHARGING);
      a.Some? == b.Some? &&
      (a.Some? ==> a.value.percent == b.value.percent && a.value.isCharging != b.value.isCharging)
  {
  }

  /**
   * Worked values: 0x0D is 60 % on battery and 0x8D 60 % charging; 0x0E (level
   * 14) is 65 %; 0x01 is 0 %; 0x7E is the unclamped 625 %; 0xFF has no reading.
   */
  lemma DecodeExamples()
    ensures BatteryStatusFromResponse(0x0D) == Some(BatteryStatus(false, 60))
    ensures BatteryStatusFromResponse(0x8D) == Some(BatteryStatus(true, 60))
    ensures BatteryStatusFromResponse(0x0E) == Some(BatteryStatus(false, 65))
    ensures BatteryStatusFromResponse(0x01) == Some(BatteryStatus(false, 0))
    ensures BatteryStatusFromResponse(0x7E) == Some(BatteryStatus(false, 625))
    ensures BatteryStatusFromResponse(0xFF) == None
  {
  }

  /** The closed set of supported drivers. */
  datatype Model = Wired | Wireless

  /** The unknown model name, carried back to the caller. */
  datatype GetMouseError = GetMouseError(model: string)

  /** The configuration name under which each driver is registered. */
  function ModelName(m: Model): string
  {
    match m
    case Wired => WIRED_MODEL
    case Wireless => WIRELESS_MODEL
  }

  /** The name dispatch of `get_mouse`: a registered name selects its driver, any other name is an error carrying it. */
  function LookupModel(name: string): (r: Result<Model, GetMouseError>)
    ensures r.Ok? ==> ModelName(r.value) == name
    ensures r.Err? ==> r.error == GetMouseError(name) && forall m: Model :: ModelName(m) != name
  {
    if name == WIRED_MODEL then Ok(Wired)
    else if name == WIRELESS_MODEL then Ok(Wireless)
    else Err(GetMouseError(name))
  }

  /** Every registered name selects its own driver. */
  lemma LookupModelName(m: Model)
    ensures LookupModel(ModelName(m)) == Ok(m)
  {
  }

  /**
   * The output report asking for the battery level: a zero report id, then the
   * request opcode, with the wireless flag set only for the wireless driver.
   */
  function BatteryRequest(m: Model): (req: seq<bv8>)
    ensures |req| == 2 && req[0] == 0x00
    ensures req[1] & !FLAG_WIRELESS == OP_BATTERY_REQUEST
    ensures req[1] & FLAG_WIRELESS != 0 <==> m == Wireless
  {
    match m
    case Wired => [0x00, OP_BATTERY_REQUEST]
    case Wireless => [0x00, OP_BATTERY_REQUEST | FLAG_WIRELESS]
  }

  /** The two requests are 0x00 0x92 and 0x00 0xD2. */
  lemma BatteryRequestBytes()
    ensures BatteryRequest(Wired) == [0x00, 0x92]
    ensures BatteryRequest(Wireless) == [0x00, 0xD2]
  {
  }

  /** An error reported by the HID layer. */
  datatype HidError = HidError(message: string)

  /**
   * What a HID device will answer: to its next writes (an error, or acceptance)
   * and to its next reads (the bytes of one input report, or an error). Once a
   * queue is empty, writes are accepted and reads deliver no bytes before the
   * timeout.
   */
  datatype DeviceScript = DeviceScript(writeAnswers: seq<Option<HidError>>, readAnswers: seq<Result<seq<bv8>, HidError>>)
  {
    predicate Exhausted()
    {
      writeAnswers == [] && readAnswers == []
    }

    function Size(): nat
    {
      |writeAnswers| + |readAnswers|
    }

    /** The answer to the next write, and the answers left. */
    function NextWrite(): (Option<HidError>, DeviceScript)
    {
      if writeAnswers == [] then (None, this) else (writeAnswers[0], this.(writeAnswers := writeAnswers[1..]))
    }

    /** The answer to the next read, and the answers left. */
    function NextRead(): (Result<seq<bv8>, HidError>, DeviceScript)
    {
      if readAnswers == [] then (Ok([]), this) else (readAnswers[0], this.(readAnswers := readAnswers[1..]))
    }
  }

  /** Byte 1 of the zeroed two-byte response buffer after a read delivered `report`. */
  function ResponseByte(report: seq<bv8>): bv8
  {
    if |report| >= OP_BATTERY_RESPONSE_LEN then report[1] else 0
  }

  /**
   * One battery query against a device with the given answers: the result of
   * `battery` and the answers left. Only a successful write is followed by a
   * read, and only a successful read reaches the decoder.
   */
  function QueryBattery(script: DeviceScript): (q: (Result<Option<BatteryStatus>, HidError>, DeviceScript))
    ensures script.writeAnswers != [] && script.writeAnswers[0].Some? ==>
      q == (Err(script.writeAnswers[0].value), script.(writeAnswers := script.writeAnswers[1..]))
    ensures q.0.Ok? && q.0.value.Some? ==> q.0.value.value.percent % 5 == 0 && q.0.value.value.percent <= 625
    ensures script.NextWrite().0.None? && script.NextWrite().1.NextRead().0.Err? ==>
      q == (Err(script.NextWrite().1.NextRead().0.error), script.NextWrite().1.NextRead().1)
    ensures script.NextWrite().0.None? && script.NextWrite().1.NextRead().0.Ok? ==>
      q.1 == script.NextWrite().1.NextRead().1 &&
      (|script.NextWrite().1.NextRead().0.value| >= 2 ==>
         q.0 == Ok(BatteryStatusFromResponse(script.NextWrite().1.NextRead().0.value[1]))) &&
      (|script.NextWrite().1.NextRead().0.value| < 2 ==> q.0 == Ok(None))
    ensures script.Exhausted() ==> q == (Ok(None), script)
    ensures !script.Exhausted() ==> q.1.Size() < script.Size()
  {
    var (written, afterWrite) := script.NextWrite();
    if written.Some? then (Err(written.value), afterWrite)
    else
      var (read, afterRead) := afterWrite.NextRead();
      match read
      case Err(e) => (Err(e), afterRead)
      case Ok(report) =>
        (Ok(BatteryStatusFromResponse(ResponseByte(report))), afterRead)
  }

  /** A read that delivers fewer than two bytes leaves byte 1 at zero, which decodes to no reading. */
  lemma ShortReadGivesNoReading(script: DeviceScript)
    requires script.NextWrite().0.None?
    requires script.NextWrite().1.NextRead().0.Ok?
    requires |script.NextWrite().1.NextRead().0.value| < 2
    ensures QueryBattery(script).0 == Ok(None)
  {
  }

  /** An opened HID device: the answers it will still give and the reports it has accepted. */
  class HidDevice {
    var script: DeviceScript
    var sent: seq<seq<bv8>>

    constructor (script: DeviceScript)
      ensures this.script == script && sent == []
    {
      this.script := script;
      sent := [];
    }

    /** `HidDevice::write`: the device either accepts the whole report or fails. */
    method Write(data: seq<bv8>) returns (r: Result<nat, HidError>)
      modifies this
      ensures script == old(script).NextWrite().1
      ensures old(script).NextWrite().0.Some? ==> r == Err(old(script).NextWrite().0.value) && sent == old(sent)
      ensures old(script).NextWrite().0.None? ==> r == Ok(|data|) && sent == old(sent) + [data]
    {
      var answer;
      answer, script := script.NextWrite().0, script.NextWrite().1;
      if answer.Some? {
        r := Err(answer.value);
      } else {
        sent := sent + [data];
        r := Ok(|data|);
      }
    }

    /**
     * `HidDevice::read_timeout`: the bytes of the next report are copied into
     * the front of `buf`, as many as fit, and their count returned; the rest of
     * `buf` is left as it was.
     */
    method ReadTimeout(buf: array<bv8>) returns (r: Result<nat, HidError>)
      modifies this, buf
      ensures script == old(script).NextRead().1 && sent == old(sent)
      ensures old(script).NextRead().0.Err? ==> r == Err(old(script).NextRead().0.error) && buf[..] == old(buf[..])
      ensures old(script).NextRead().0.Ok? ==>
        var report := old(script).NextRead().0.value;
        var n := if |report| < buf.Length then |report| else buf.Length;
        r == Ok(n) && buf[..] == report[..n] + old(buf[..])[n..]
    {
      var answer;
      answer, script := script.NextRead().0, script.NextRead().1;
      match answer
      case Err(e) =>
        r := Err(e);
      case Ok(report) =>
        var n := if |report| < buf.Length then |report| else buf.Length;
        forall i | 0 <= i < n {
          buf[i] := report[i];
        }
        r := Ok(n);
    }
  }

  /** A driver instance: one opened device bound to one of the two drivers. */
  class Mouse {
    const kind: Model
    const device: HidDevice

    constructor (kind: Model, device: HidDevice)
      ensures this.kind == kind && this.device == device
    {
      this.kind := kind;
      this.device := device;
    }

    /**
     * `battery` of both drivers: write the driver's request, read a two-byte
     * response into a zeroed buffer, decode its byte 1. A write error returns
     * without reading; a read error returns without decoding.
     */
    method Battery() returns (r: Result<Option<BatteryStatus>, HidError>)
      modifies device
      ensures (r, device.script) == QueryBattery(old(device.script))
      ensures device.sent == old(device.sent) + (if old(device.script).NextWrite().0.None? then [BatteryRequest(kind)] else [])
    {
      var request := BatteryRequest(kind);
      var written := device.Write(request);
      if written.Err? {
        return Err(written.error);
      }
      var response := new bv8[OP_BATTERY_RESPONSE_LEN](_ => 0);
      var read := device.ReadTimeout(response);
      if read.Err? {
        return Err(read.error);
      }
      assert response[1] == response[..][1];
      r := Ok(BatteryStatusFromResponse(response[1]));
    }
  }

  /** `get_mouse`: wraps an opened device in the driver its model name selects. */
  method GetMouse(model: string, device: HidDevice) returns (r: Result<Mouse, GetMouseError>)
    ensures r.Ok? <==> LookupModel(model).Ok?
    ensures r.Ok? ==> fresh(r.value) && r.value.kind == LookupModel(model).value && r.value.device == device
    ensures r.Err? ==> r.error == GetMouseError(model)
  {
    match LookupModel(model)
    case Ok(kind) =>
      var mouse := new Mouse(kind, device);
      r := Ok(mouse);
    case Err(e) =>
      r := Err(e);
  }
}

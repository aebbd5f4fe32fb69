/**
 * The reconnection loop of the daemon: locate a mouse, poll its battery until
 * the device fails, print a blank line, then watch udev until a configured
 * mouse may have appeared or the timer runs out, and start over.
 *
 * The loop never ends on its own; here it runs on finite streams of what the
 * outside world does and stops when one it needs runs dry.
 */
module Daemon {
  import opened Wrappers
  import opened Ints
  import opened Config
  import opened Mouse
  import opened Hotplug
  import opened Locator

  const BATTERY_GLYPH: char := '\U{F8CC}'
  const CHARGING_GLYPH: char := '\U{F0E7}'

  function DigitChar(d: nat): char
    requires d < 10
  {
    (0x30 + d) as char
  }

  function DigitValue(c: char): nat
    requires '0' <= c <= '9'
  {
    c as int - 0x30
  }

  /** Decimal formatting of an unsigned integer: its digits, most significant first, without leading zeros. */
  function Decimal(n: nat): (s: string)
    ensures |s| >= 1 && forall i :: 0 <= i < |s| ==> '0' <= s[i] <= '9'
    ensures s[0] == '0' ==> n == 0
    decreases n
  {
    if n < 10 then [DigitChar(n)] else Decimal(n / 10) + [DigitChar(n % 10)]
  }

  /** Reads a non-empty string of decimal digits. */
  function ParseDecimal(s: string): Option<nat>
    decreases |s|
  {
    if s == [] || !('0' <= s[|s| - 1] <= '9') then None
    else if |s| == 1 then Some(DigitValue(s[0]))
    else
      match ParseDecimal(s[..|s| - 1])
      case None => None
      case Some(m) => Some(m * 10 + DigitValue(s[|s| - 1]))
  }

  /** Formatting a number and reading it back gives the number. */
  lemma {:induction false} ParseDecimalOfDecimal(n: nat)
    ensures ParseDecimal(Decimal(n)) == Some(n)
    decreases n
  {
    if n >= 10 {
      ParseDecimalOfDecimal(n / 10);
      var s := Decimal(n);
      assert s[..|s| - 1] == Decimal(n / 10);
    }
  }

  /** The line printed for a reading: the battery glyph, the charging glyph when charging, a space, the percent and '%'. */
  function StatusLine(s: BatteryStatus): string
  {
    [BATTERY_GLYPH] + (if s.isCharging then [CHARGING_GLYPH] else []) + " " + Decimal(s.percent) + "%"
  }

  /** Reads a status line back as (charging, percent). */
  function ParseStatusLine(line: string): Option<(bool, nat)>
  {
    if |line| < 4 || line[0] != BATTERY_GLYPH || line[|line| - 1] != '%' then None
    else
      var body := line[1..|line| - 1];
      var charging := body[0] == CHARGING_GLYPH;
      var rest := if charging then body[1..] else body;
      if rest == [] || rest[0] != ' ' then None
      else
        match ParseDecimal(rest[1..])
        case None => None
        case Some(p) => Some((charging, p))
  }

  /** A status line says exactly whether the mouse charges and its percent. */
  lemma StatusLineRoundTrip(s: BatteryStatus)
    ensures ParseStatusLine(StatusLine(s)) == Some((s.isCharging, s.percent))
  {
    var flag: string := if s.isCharging then [CHARGING_GLYPH] else [];
    var digits := Decimal(s.percent);
    assert StatusLine(s) == [BATTERY_GLYPH] + (flag + (" " + digits)) + "%";
    ParseDecimalOfDecimal(s.percent);
    ParseLineOfParts(s.isCharging, digits, s.percent);
  }

  /** A line assembled from a charging flag and a decimal numeral reads back as the two. */
  lemma ParseLineOfParts(charging: bool, digits: string, n: nat)
    requires ParseDecimal(digits) == Some(n)
    ensures ParseStatusLine([BATTERY_GLYPH] + ((if charging then [CHARGING_GLYPH] else []) + (" " + digits)) + "%")
         == Some((charging, n))
  {
    var rest := " " + digits;
    var body := (if charging then [CHARGING_GLYPH] else []) + rest;
    var line := [BATTERY_GLYPH] + body + "%";
    assert line[1..|line| - 1] == body;
    if charging {
      assert body[1..] == rest;
    } else {
      assert body == rest;
    }
    assert rest[1..] == digits;
  }

  /** A line the daemon may print: blank, or a status line with a percent that a response can carry. */
  predicate IsOutputLine(line: string)
  {
    line == "" ||
    (ParseStatusLine(line).Some? && ParseStatusLine(line).value.1 % 5 == 0 && ParseStatusLine(line).value.1 <= 625)
  }

  /** The steps of building the udev monitor, each of which can fail. */
  datatype MonitorStep = NewBuilder | MatchSubsystem | Listen | IntoAsync

  /** The errors that end the daemon from inside its loop. */
  datatype Error = InitializeHidApi(error: HidError) | UdevBuildMonitor | UdevListen | UdevAsync

  /** The error each failed monitor step is reported as. */
  function MonitorError(step: MonitorStep): Error
  {
    match step
    case NewBuilder => UdevBuildMonitor
    case MatchSubsystem => UdevBuildMonitor
    case Listen => UdevListen
    case IntoAsync => UdevAsync
  }

  /** An error receiving from the udev socket. */
  datatype IoError = IoError(message: string)

  /**
   * What one wait of the watch loop yields: the timer fired first, or the
   * event stream produced its next item (none once it has ended).
   */
  datatype Wait = TimerExpired | Stream(item: Option<Result<UdevEvent, IoError>>)

  /**
   * The outside world as finite streams: what each `HidApi::new` gives, how
   * each monitor setup goes (the failing step, if any), and what each wait of
   * the watch loop yields. An opened device's answers travel with its
   * enumeration entry.
   */
  datatype Env = Env(hidInits: seq<Result<HidApi, HidError>>, monitors: seq<Option<MonitorStep>>, waits: seq<Wait>)

  /** Why a run ended: an error the daemon returns, or the end of the modelled input. */
  datatype Stop = Fatal(error: Error) | OutOfInput

  /**
   * Where the loop is: locating a mouse, polling an opened mouse (its driver
   * and what its device will still answer), printing the blank line and
   * building the monitor, watching udev, or ended.
   */
  datatype Phase = Locating | Polling(mouse: Model, device: DeviceScript) | Idle | Watching | Stopped(reason: Stop)

  /** One step: the next phase, the world left, and the lines printed. */
  datatype Transition = Transition(next: Phase, env: Env, out: seq<string>)

  /** What a run prints and why it ends. */
  datatype Trace = Trace(lines: seq<string>, stop: Stop)

  /** The part of the termination measure below the count of enumerations. */
  function Remaining(p: Phase, env: Env): nat
  {
    |env.monitors| + |env.waits| + (if p.Polling? then p.device.Size() else 0) + (if p.Stopped? then 0 else 1)
  }

  /**
   * One transition of the loop. Locating goes to Polling when a mouse opens and
   * to Idle otherwise; Polling stays while the device answers, printing a
   * reading when there is one, and goes to Idle on a device error; Idle prints
   * the blank line and goes to Watching once the monitor is built; Watching
   * goes back to Locating on a relevant event, the timer or the end of the
   * stream, and keeps watching otherwise.
   */
  function Step(mice: ProfileTable, p: Phase, env: Env): (t: Transition)
    requires !p.Stopped?
    ensures |t.env.hidInits| < |env.hidInits| ||
      (|t.env.hidInits| == |env.hidInits| && Remaining(t.next, t.env) < Remaining(p, env))
  {
    match p
    case Locating =>
      if env.hidInits == [] then Transition(Stopped(OutOfInput), env, [])
      else
        var rest := env.(hidInits := env.hidInits[1..]);
        (match env.hidInits[0]
         case Err(e) => Transition(Stopped(Fatal(InitializeHidApi(e))), rest, [])
         case Ok(api) =>
           (match ScanResult(mice, api.devices)
            case Ok((i, d)) => Transition(Polling(LookupModel(mice[i].1.model).value, api.devices[d].script), rest, [])
            case Err(_) => Transition(Idle, rest, [])))
    case Polling(m, device) =>
      if device.Exhausted() then Transition(Stopped(OutOfInput), env, [])
      else
        var (reading, left) := QueryBattery(device);
        (match reading
         case Ok(Some(s)) => Transition(Polling(m, left), env, [StatusLine(s)])
         case Ok(None) => Transition(Polling(m, left), env, [])
         case Err(_) => Transition(Idle, env, []))
    case Idle =>
      if env.monitors == [] then Transition(Stopped(OutOfInput), env, [""])
      else
        var rest := env.(monitors := env.monitors[1..]);
        (match env.monitors[0]
         case Some(step) => Transition(Stopped(Fatal(MonitorError(step))), rest, [""])
         case None => Transition(Watching, rest, [""]))
    case Watching =>
      if env.waits == [] then Transition(Stopped(OutOfInput), env, [])
      else
        var rest := env.(waits := env.waits[1..]);
        match env.waits[0]
        case TimerExpired => Transition(Locating, rest, [])
        case Stream(None) => Transition(Locating, rest, [])
        case Stream(Some(Err(_))) => Transition(Watching, rest, [])
        case Stream(Some(Ok(event))) =>
          if ProcessUdevEvent(event, mice) == Ok(true) then Transition(Locating, rest, [])
          else Transition(Watching, rest, [])
  }

  /**
   * Locating prints nothing and uses up one creation of the HID context when
   * one is left. It goes to Polling, with the driver and the device the scan
   * chose, exactly when the context is created and a mouse opens; it stops
   * when the context cannot be created or no creation is left, and otherwise
   * goes to Idle.
   */
  lemma LocateStep(mice: ProfileTable, env: Env)
    ensures var t := Step(mice, Locating, env);
      t.out == [] && (t.next.Polling? || t.next.Idle? || t.next.Stopped?) &&
      (t.next.Polling? <==> env.hidInits != [] && env.hidInits[0].Ok? && ScanResult(mice, env.hidInits[0].value.devices).Ok?) &&
      (t.next.Stopped? <==> env.hidInits == [] || env.hidInits[0].Err?)
    ensures env.hidInits == [] ==> Step(mice, Locating, env).next == Stopped(OutOfInput)
    ensures env.hidInits != [] ==> Step(mice, Locating, env).env == env.(hidInits := env.hidInits[1..])
    ensures env.hidInits != [] && env.hidInits[0].Err? ==>
      Step(mice, Locating, env).next == Stopped(Fatal(InitializeHidApi(env.hidInits[0].error)))
    ensures env.hidInits != [] && env.hidInits[0].Ok? && ScanResult(mice, env.hidInits[0].value.devices).Ok? ==>
      var (i, d) := ScanResult(mice, env.hidInits[0].value.devices).value;
      Step(mice, Locating, env).next == Polling(LookupModel(mice[i].1.model).value, env.hidInits[0].value.devices[d].script)
  {
  }

  /**
   * Polling prints at most one line, the status line of a reading with a
   * percent a response can carry, keeps polling while the device answers, and
   * goes to Idle exactly on a device error. A reading prints its own status
   * line, and a missing reading prints nothing; both keep polling the same
   * driver on the answers left.
   */
  lemma PollStep(mice: ProfileTable, m: Model, device: DeviceScript, env: Env)
    ensures var t := Step(mice, Polling(m, device), env);
      (t.next.Polling? || t.next.Idle? || t.next.Stopped?) &&
      (t.next.Stopped? <==> device.Exhausted()) &&
      (!device.Exhausted() ==> (t.next.Idle? <==> QueryBattery(device).0.Err?)) &&
      (t.out == [] || exists s: BatteryStatus :: t.out == [StatusLine(s)] && s.percent % 5 == 0 && s.percent <= 625)
    ensures !device.Exhausted() && QueryBattery(device).0.Ok? && QueryBattery(device).0.value.Some? ==>
      Step(mice, Polling(m, device), env) ==
        Transition(Polling(m, QueryBattery(device).1), env, [StatusLine(QueryBattery(device).0.value.value)])
    ensures !device.Exhausted() && QueryBattery(device).0 == Ok(None) ==>
      Step(mice, Polling(m, device), env) == Transition(Polling(m, QueryBattery(device).1), env, [])
    ensures !device.Exhausted() && QueryBattery(device).0.Err? ==>
      Step(mice, Polling(m, device), env) == Transition(Idle, env, [])
  {
  }

  /** Idle prints the blank line and goes on to Watching exactly when the monitor is built. */
  lemma IdleStep(mice: ProfileTable, env: Env)
    ensures var t := Step(mice, Idle, env);
      t.out == [""] && (t.next.Watching? || t.next.Stopped?) &&
      (t.next.Watching? <==> env.monitors != [] && env.monitors[0].None?)
    ensures env.monitors != [] && env.monitors[0].Some? ==>
      Step(mice, Idle, env).next == Stopped(Fatal(MonitorError(env.monitors[0].value)))
  {
  }

  /**
   * Watching prints nothing; it goes back to Locating on the timer, at the end
   * of the stream or on a relevant event, and keeps watching on a receive
   * error or any other event.
   */
  lemma WatchStep(mice: ProfileTable, env: Env)
    ensures var t := Step(mice, Watching, env);
      t.out == [] && (t.next.Watching? || t.next.Locating? || t.next.Stopped?) &&
      (t.next.Stopped? <==> env.waits == []) &&
      (env.waits != [] && env.waits[0].Stream? && env.waits[0].item.Some? ==>
        (t.next.Locating? <==> env.waits[0].item.value.Ok? && ProcessUdevEvent(env.waits[0].item.value.value, mice) == Ok(true))) &&
      (env.waits != [] && !(env.waits[0].Stream? && env.waits[0].item.Some?) ==> t.next.Locating?)
  {
  }

  /** Prepends lines already printed to a trace. */
  function Then(lines: seq<string>, t: Trace): Trace
  {
    Trace(lines + t.lines, t.stop)
  }

  /** Everything the loop prints from a phase on, and why it ends. */
  function Run(mice: ProfileTable, p: Phase, env: Env): Trace
    decreases |env.hidInits|, Remaining(p, env)
  {
    if p.Stopped? then Trace([], p.reason)
    else
      var t := Step(mice, p, env);
      Then(t.out, Run(mice, t.next, t.env))
  }

  /** Printing two batches of lines in turn is printing them together. */
  lemma ThenThen(a: seq<string>, b: seq<string>, t: Trace)
    ensures Then(a, Then(b, t)) == Then(a + b, t)
  {
  }

  /** Every line the daemon prints is blank or the status line of a percent a response can carry. */
  lemma {:induction false} RunPrintsOnlyStatusOrBlank(mice: ProfileTable, p: Phase, env: Env)
    ensures forall k :: 0 <= k < |Run(mice, p, env).lines| ==> IsOutputLine(Run(mice, p, env).lines[k])
    decreases |env.hidInits|, Remaining(p, env)
  {
    if !p.Stopped? {
      var t := Step(mice, p, env);
      RunPrintsOnlyStatusOrBlank(mice, t.next, t.env);
      match p {
        case Locating => LocateStep(mice, env);
        case Polling(m, device) => PollStep(mice, m, device, env);
        case Idle => IdleStep(mice, env);
        case Watching => WatchStep(mice, env);
      }
      if t.out != [] && t.out != [""] {
        var s: BatteryStatus :| t.out == [StatusLine(s)] && s.percent % 5 == 0 && s.percent <= 625;
        StatusLineRoundTrip(s);
      }
      var lines := Run(mice, p, env).lines;
      assert lines == t.out + Run(mice, t.next, t.env).lines;
      forall k | 0 <= k < |lines|
        ensures IsOutputLine(lines[k])
      {
        if k >= |t.out| {
          assert lines[k] == Run(mice, t.next, t.env).lines[k - |t.out|];
        }
      }
    }
  }

  /** A device error while polling is followed at once by the blank line. */
  lemma PollFailurePrintsBlank(mice: ProfileTable, m: Model, device: DeviceScript, env: Env)
    requires !device.Exhausted() && QueryBattery(device).0.Err?
    ensures Run(mice, Polling(m, device), env).lines != [] && Run(mice, Polling(m, device), env).lines[0] == ""
  {
  }

  /**
   * The daemon configured for one wired mouse, whose device answers 60 % and
   * then fails: it prints the reading, then the blank line, and stops at the
   * end of the modelled input while watching.
   */
  lemma ScenarioReadingThenFailure()
    ensures
      var mice := [("aerox", MouseProfile(WIRED_MODEL, 0x1836, 0x1038, 0))];
      var script := DeviceScript([], [Ok([0x00, 0x0D]), Err(HidError("gone"))]);
      var env := Env([Ok(HidApi([DeviceInfo(0x1038, 0x1836, 0, None, script)]))], [None], []);
      Run(mice, Locating, env) == Trace(["\U{F8CC} 60%", ""], OutOfInput)
  {
    var mice := [("aerox", MouseProfile(WIRED_MODEL, 0x1836, 0x1038, 0))];
    var script := DeviceScript([], [Ok([0x00, 0x0D]), Err(HidError("gone"))]);
    var devices := [DeviceInfo(0x1038, 0x1836, 0, None, script)];
    var env := Env([Ok(HidApi(devices))], [None], []);
    assert FirstMatch(mice[0].1, devices) == Some(0);
    assert ScanResult(mice[1..], devices) == Err(NotFound);
    assert ScanResult(mice, devices) == Ok((0, 0));
    var after := Env([], [None], []);
    assert Step(mice, Locating, env) == Transition(Polling(Wired, script), after, []);
    var left := DeviceScript([], [Err(HidError("gone"))]);
    assert QueryBattery(script) == (Ok(Some(BatteryStatus(false, 60))), left);
    assert Decimal(60) == "60";
    assert StatusLine(BatteryStatus(false, 60)) == "\U{F8CC} 60%";
    assert Step(mice, Polling(Wired, script), after) == Transition(Polling(Wired, left), after, ["\U{F8CC} 60%"]);
    assert Step(mice, Polling(Wired, left), after) == Transition(Idle, after, []);
    assert Run(mice, Idle, after) == Trace([""], OutOfInput);
  }

  /**
   * The poll loop of `main`, on a device's answers: the lines it prints (one
   * per reading) and whether the answers run out before a device error ends
   * it.
   */
  function PollLoop(device: DeviceScript): (r: (seq<string>, bool))
    ensures device.Exhausted() ==> r == ([], true)
    ensures |r.0| <= |device.readAnswers|
    decreases device.Size()
  {
    if device.Exhausted() then ([], true)
    else
      var (reading, left) := QueryBattery(device);
      match reading
      case Err(_) => ([], false)
      case Ok(status) =>
        var (rest, exhausted) := PollLoop(left);
        ((if status.Some? then [StatusLine(status.value)] else []) + rest, exhausted)
  }

  /** Every line the poll loop prints is the status line of a reading with a percent a response can carry. */
  lemma {:induction false} PollLoopPrintsReadings(device: DeviceScript)
    ensures forall k :: 0 <= k < |PollLoop(device).0| ==>
      PollLoop(device).0[k] != "" && IsOutputLine(PollLoop(device).0[k])
    decreases device.Size()
  {
    if !device.Exhausted() {
      var (reading, left) := QueryBattery(device);
      if reading.Ok? {
        PollLoopPrintsReadings(left);
        var out := if reading.value.Some? then [StatusLine(reading.value.value)] else [];
        if reading.value.Some? {
          StatusLineRoundTrip(reading.value.value);
        }
        var lines := PollLoop(device).0;
        assert lines == out + PollLoop(left).0;
        forall k | 0 <= k < |lines|
          ensures lines[k] != "" && IsOutputLine(lines[k])
        {
          if k >= |out| {
            assert lines[k] == PollLoop(left).0[k - |out|];
          }
        }
      }
    }
  }

  /**
   * The watch loop of `main`: the world left when it stops watching, or why
   * the run ends. The timer, the end of the stream and a relevant event stop
   * the watch; receive errors and other events are skipped.
   */
  function WatchLoop(mice: ProfileTable, e: Env): (r: (Env, Option<Stop>))
    ensures r.0.hidInits == e.hidInits
    ensures r.1.Some? ==> r.1 == Some(OutOfInput)
    decreases |e.waits|
  {
    if e.waits == [] then (e, Some(OutOfInput))
    else
      var left := e.(waits := e.waits[1..]);
      match e.waits[0]
      case TimerExpired => (left, None)
      case Stream(None) => (left, None)
      case Stream(Some(Err(_))) => WatchLoop(mice, left)
      case Stream(Some(Ok(event))) =>
        if ProcessUdevEvent(event, mice) == Ok(true) then (left, None) else WatchLoop(mice, left)
  }

  /**
   * `main`'s loop as the code nests it: each round creates the HID context,
   * locates a mouse and polls it, prints the blank line, builds the monitor
   * and watches.
   */
  function DaemonLoop(mice: ProfileTable, e: Env): Trace
    decreases |e.hidInits|
  {
    if e.hidInits == [] then Trace([], OutOfInput)
    else
      var e1 := e.(hidInits := e.hidInits[1..]);
      match e.hidInits[0]
      case Err(error) => Trace([], Fatal(InitializeHidApi(error)))
      case Ok(api) =>
        var (polled, exhausted) :=
          match ScanResult(mice, api.devices)
          case Ok((_, d)) => PollLoop(api.devices[d].script)
          case Err(_) => ([], false);
        if exhausted then Trace(polled, OutOfInput)
        else
          var printed := polled + [""];
          if e1.monitors == [] then Trace(printed, OutOfInput)
          else
            match e1.monitors[0]
            case Some(step) => Trace(printed, Fatal(MonitorError(step)))
            case None =>
              var (e3, halt) := WatchLoop(mice, e1.(monitors := e1.monitors[1..]));
              if halt.Some? then Trace(printed, halt.value)
              else Then(printed, DaemonLoop(mice, e3))
  }

  /** Polling, as the state machine runs it, is the poll loop followed by Idle unless the answers run out. */
  lemma {:induction false} RunPollingIsPollLoop(mice: ProfileTable, m: Model, device: DeviceScript, e: Env)
    ensures var (lines, exhausted) := PollLoop(device);
      Run(mice, Polling(m, device), e) == (if exhausted then Trace(lines, OutOfInput) else Then(lines, Run(mice, Idle, e)))
    decreases device.Size()
  {
    if !device.Exhausted() {
      var (reading, left) := QueryBattery(device);
      if reading.Ok? {
        RunPollingIsPollLoop(mice, m, left, e);
        var out := if reading.value.Some? then [StatusLine(reading.value.value)] else [];
        assert Run(mice, Polling(m, device), e) == Then(out, Run(mice, Polling(m, left), e));
        ThenThen(out, PollLoop(left).0, Run(mice, Idle, e));
      }
    }
  }

  /** Watching, as the state machine runs it, is the watch loop followed by Locating unless the run ends. */
  lemma {:induction false} RunWatchingIsWatchLoop(mice: ProfileTable, e: Env)
    ensures var (left, halt) := WatchLoop(mice, e);
      Run(mice, Watching, e) == (if halt.Some? then Trace([], halt.value) else Run(mice, Locating, left))
    decreases |e.waits|
  {
    if e.waits != [] {
      var left := e.(waits := e.waits[1..]);
      if Step(mice, Watching, e).next == Watching {
        RunWatchingIsWatchLoop(mice, left);
      }
    }
  }

  /** The state machine and the nested loops of the code print the same lines and end the same way. */
  lemma {:induction false} RunIsDaemonLoop(mice: ProfileTable, e: Env)
    ensures Run(mice, Locating, e) == DaemonLoop(mice, e)
    decreases |e.hidInits|
  {
    if e.hidInits != [] && e.hidInits[0].Ok? {
      var api := e.hidInits[0].value;
      var e1 := e.(hidInits := e.hidInits[1..]);
      var polled: seq<string> := [];
      var exhausted := false;
      match ScanResult(mice, api.devices) {
        case Ok((i, d)) =>
          var m := LookupModel(mice[i].1.model).value;
          RunPollingIsPollLoop(mice, m, api.devices[d].script, e1);
          polled, exhausted := PollLoop(api.devices[d].script).0, PollLoop(api.devices[d].script).1;
          assert Run(mice, Locating, e) == Run(mice, Polling(m, api.devices[d].script), e1);
        case Err(_) =>
          assert Run(mice, Locating, e) == Run(mice, Idle, e1);
      }
      if !exhausted {
        assert Run(mice, Locating, e) == Then(polled, Run(mice, Idle, e1));
        if e1.monitors != [] && e1.monitors[0].None? {
          var e2 := e1.(monitors := e1.monitors[1..]);
          RunWatchingIsWatchLoop(mice, e2);
          var (e3, halt) := WatchLoop(mice, e2);
          assert Run(mice, Idle, e1) == Then([""], Run(mice, Watching, e2));
          ThenThen(polled, [""], Run(mice, Watching, e2));
          if halt.None? {
            RunIsDaemonLoop(mice, e3);
            assert DaemonLoop(mice, e) == Then(polled + [""], DaemonLoop(mice, e3));
          } else {
            assert DaemonLoop(mice, e) == Trace(polled + [""], halt.value);
          }
        } else if e1.monitors == [] {
          assert Run(mice, Idle, e1) == Trace([""], OutOfInput);
          assert DaemonLoop(mice, e) == Trace(polled + [""], OutOfInput);
        } else {
          var stop := Fatal(MonitorError(e1.monitors[0].value));
          assert Run(mice, Idle, e1) == Trace([""], stop);
          assert DaemonLoop(mice, e) == Trace(polled + [""], stop);
        }
      }
    }
  }

  /**
   * The poll loop of `main`: read the battery until the device fails,
   * printing each reading; ends early when the modelled device has no answers
   * left.
   */
  method PollUntilFailure(mouse: Mouse) returns (lines: seq<string>, exhausted: bool)
    modifies mouse.device
    ensures (lines, exhausted) == PollLoop(old(mouse.device.script))
  {
    lines := [];
    ghost var start := mouse.device.script;
    assert lines + PollLoop(start).0 == PollLoop(start).0;
    while true
      invariant PollLoop(start) == (lines + PollLoop(mouse.device.script).0, PollLoop(mouse.device.script).1)
      decreases mouse.device.script.Size()
    {
      if mouse.device.script.Exhausted() {
        assert lines + [] == lines;
        return lines, true;
      }
      ghost var before := mouse.device.script;
      var reading := mouse.Battery();
      ghost var after := mouse.device.script;
      match reading {
        case Ok(Some(status)) =>
          assert PollLoop(before) == ([StatusLine(status)] + PollLoop(after).0, PollLoop(after).1);
          assert lines + ([StatusLine(status)] + PollLoop(after).0) == lines + [StatusLine(status)] + PollLoop(after).0;
          lines := lines + [StatusLine(status)];
        case Ok(None) =>
          assert PollLoop(before).0 == [] + PollLoop(after).0 == PollLoop(after).0;
        case Err(_) =>
          assert PollLoop(before) == ([], false);
          assert lines + [] == lines;
          return lines, false;
      }
    }
  }

  /**
   * The watch loop of `main`: wait for the timer or the next udev event until
   * the timer fires, the stream ends or a relevant event arrives. Gives the
   * world left, or why the run ends.
   */
  method Watch(mice: ProfileTable, e: Env) returns (left: Env, stop: Option<Stop>)
    ensures (left, stop) == WatchLoop(mice, e)
  {
    left := e;
    while true
      invariant WatchLoop(mice, e) == WatchLoop(mice, left)
      decreases |left.waits|
    {
      if left.waits == [] {
        return left, Some(OutOfInput);
      }
      var wait := left.waits[0];
      left := left.(waits := left.waits[1..]);
      var event := match wait
        case TimerExpired => None
        case Stream(item) => item;
      if event.None? {
        return left, None;
      }
      match event.value {
        case Ok(ev) =>
          var relevant := ProcessUdevEvent(ev, mice);
          if relevant == Ok(true) {
            return left, None;
          }
        case Err(_) =>
      }
    }
  }

  /**
   * `main`'s loop: create the HID context and locate a mouse; poll it until
   * it fails; print a blank line; build the udev monitor; watch until a
   * relevant event, the timer or the end of the stream; repeat.
   */
  method RunDaemon(mice: ProfileTable, env: Env) returns (lines: seq<string>, stop: Stop)
    ensures Trace(lines, stop) == DaemonLoop(mice, env)
  {
    lines := [];
    var e := env;
    while true
      invariant DaemonLoop(mice, env) == Then(lines, DaemonLoop(mice, e))
      decreases |e.hidInits|
    {
      if e.hidInits == [] {
        return lines, OutOfInput;
      }
      var init := e.hidInits[0];
      ghost var round := e;
      e := e.(hidInits := e.hidInits[1..]);
      if init.Err? {
        return lines, Fatal(InitializeHidApi(init.error));
      }
      var found := OpenFirstMouse(init.value, mice);
      var printed: seq<string> := [];
      var exhausted := false;
      if found.Ok? {
        printed, exhausted := PollUntilFailure(found.value);
      }
      if exhausted {
        return lines + printed, OutOfInput;
      }
      printed := printed + [""];
      if e.monitors == [] {
        return lines + printed, OutOfInput;
      }
      var setup := e.monitors[0];
      e := e.(monitors := e.monitors[1..]);
      if setup.Some? {
        return lines + printed, Fatal(MonitorError(setup.value));
      }
      var halted;
      e, halted := Watch(mice, e);
      if halted.Some? {
        return lines + printed, halted.value;
      }
      ThenThen(lines, printed, DaemonLoop(mice, e));
      lines := lines + printed;
    }
  }
}

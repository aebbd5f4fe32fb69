/**
 * The device locator (`open_first_mouse`): scans the enumerated HID interfaces
 * for each configured profile and opens the matching one.
 */
module Locator {
  import opened Wrappers
  import opened Ints
  import opened Config
  import opened Mouse

  /**
   * One enumerated HID interface: its ids and interface number, whether
   * opening it fails, and how the opened device will answer.
   */
  datatype DeviceInfo = DeviceInfo(
    vendorId: u16,
    productId: u16,
    interfaceNumber: i32,
    openFailure: Option<HidError>,
    script: DeviceScript)

  /** A HID context, holding the device list captured when it was created. */
  datatype HidApi = HidApi(devices: seq<DeviceInfo>)
  {
    function DeviceList(): seq<DeviceInfo>
    {
      devices
    }
  }

  datatype OpenFirstMouseError = NotFound | OpenMouse(error: HidError) | WrapMouse(wrapError: GetMouseError)

  /** `DeviceInfo::open_device`: fails as the interface dictates, or yields a fresh handle on it. */
  method OpenDevice(info: DeviceInfo) returns (r: Result<HidDevice, HidError>)
    ensures info.openFailure.Some? ==> r == Err(info.openFailure.value)
    ensures info.openFailure.None? ==> r.Ok? && fresh(r.value) && r.value.script == info.script && r.value.sent == []
  {
    if info.openFailure.Some? {
      r := Err(info.openFailure.value);
    } else {
      var device := new HidDevice(info.script);
      r := Ok(device);
    }
  }

  /** An interface belongs to a profile when vendor id, product id and interface number all agree. */
  predicate Matches(p: MouseProfile, d: DeviceInfo)
  {
    d.vendorId == p.vendor && d.productId == p.product && d.interfaceNumber == p.endpoint
  }

  /** The first interface, in enumeration order, that belongs to the profile. */
  function FirstMatch(p: MouseProfile, ds: seq<DeviceInfo>): (r: Option<nat>)
    ensures r.Some? ==> r.value < |ds| && Matches(p, ds[r.value]) && forall k :: 0 <= k < r.value ==> !Matches(p, ds[k])
    ensures r.None? ==> forall k :: 0 <= k < |ds| ==> !Matches(p, ds[k])
  {
    if ds == [] then None
    else if Matches(p, ds[0]) then Some(0)
    else
      match FirstMatch(p, ds[1..])
      case None =>
        assert forall k :: 1 <= k < |ds| ==> ds[k] == ds[1..][k - 1];
        None
      case Some(k) => Some(k + 1)
  }

  /**
   * What scanning for one profile leads to: nothing when no interface belongs
   * to it; otherwise its first interface is opened and wrapped, giving that
   * interface's index or the error that aborts the whole scan. The open is
   * tried first, so its error wins over an unknown model name.
   */
  function Attempt(p: MouseProfile, ds: seq<DeviceInfo>): (r: Option<Result<nat, OpenFirstMouseError>>)
    ensures r.None? <==> forall k :: 0 <= k < |ds| ==> !Matches(p, ds[k])
    ensures r.Some? && r.value.Ok? ==>
      r.value.value < |ds| && FirstMatch(p, ds) == Some(r.value.value) &&
      ds[r.value.value].openFailure.None? && LookupModel(p.model).Ok?
    ensures r.Some? && r.value.Err? ==> r.value.error != NotFound
    ensures FirstMatch(p, ds).Some? && ds[FirstMatch(p, ds).value].openFailure.Some? ==>
      r == Some(Err(OpenMouse(ds[FirstMatch(p, ds).value].openFailure.value)))
    ensures FirstMatch(p, ds).Some? && ds[FirstMatch(p, ds).value].openFailure.None? ==>
      r == Some(if LookupModel(p.model).Ok? then Ok(FirstMatch(p, ds).value) else Err(WrapMouse(GetMouseError(p.model))))
  {
    match FirstMatch(p, ds)
    case None => None
    case Some(k) =>
      if ds[k].openFailure.Some? then Some(Err(OpenMouse(ds[k].openFailure.value)))
      else match LookupModel(p.model)
        case Err(e) => Some(Err(WrapMouse(e)))
        case Ok(_) => Some(Ok(k))
  }

  /** Whether a profile's scan aborts the locator. */
  predicate Aborts(a: Option<Result<nat, OpenFirstMouseError>>)
  {
    a.Some? && a.value.Err?
  }

  /** Renumbers a result for the table without its first profile as one for the whole table. */
  function Shift(r: Result<(nat, nat), OpenFirstMouseError>): Result<(nat, nat), OpenFirstMouseError>
  {
    match r
    case Ok((i, d)) => Ok((i + 1, d))
    case Err(e) => Err(e)
  }

  /**
   * What `open_first_mouse` yields, as (profile index, interface index) or an
   * error: the first profile whose scan aborts decides the error; otherwise
   * the last profile with a matching interface wins; otherwise nothing is found.
   */
  function ScanResult(mice: ProfileTable, ds: seq<DeviceInfo>): (r: Result<(nat, nat), OpenFirstMouseError>)
    ensures r.Ok? ==> r.value.0 < |mice| && Attempt(mice[r.value.0].1, ds) == Some(Ok(r.value.1))
    decreases |mice|
  {
    if mice == [] then Err(NotFound)
    else
      var rest := Shift(ScanResult(mice[1..], ds));
      match Attempt(mice[0].1, ds)
      case None => rest
      case Some(Err(e)) => Err(e)
      case Some(Ok(d)) => if rest == Err(NotFound) then Ok((0, d)) else rest
  }

  /** Nothing is found exactly when no profile has a matching interface. */
  lemma {:induction false} ScanNotFound(mice: ProfileTable, ds: seq<DeviceInfo>)
    ensures ScanResult(mice, ds) == Err(NotFound) <==>
      forall i, j :: 0 <= i < |mice| && 0 <= j < |ds| ==> !Matches(mice[i].1, ds[j])
  {
    if mice != [] {
      ScanNotFound(mice[1..], ds);
      assert forall i :: 1 <= i < |mice| ==> mice[i] == mice[1..][i - 1];
    }
  }

  /** The first profile whose scan aborts decides the result, whatever earlier profiles found. */
  lemma {:induction false} ScanAborts(mice: ProfileTable, ds: seq<DeviceInfo>, i: nat, e: OpenFirstMouseError)
    requires i < |mice| && Attempt(mice[i].1, ds) == Some(Err(e))
    requires forall k :: 0 <= k < i ==> !Aborts(Attempt(mice[k].1, ds))
    ensures ScanResult(mice, ds) == Err(e)
  {
    if i > 0 {
      ScanAborts(mice[1..], ds, i - 1, e);
    }
  }

  /**
   * With no scan aborting, the result is the last profile that has a matching
   * interface, together with that profile's first matching interface.
   */
  lemma {:induction false} ScanFindsLast(mice: ProfileTable, ds: seq<DeviceInfo>, i: nat, d: nat)
    requires i < |mice| && Attempt(mice[i].1, ds) == Some(Ok(d))
    requires forall k :: 0 <= k < i ==> !Aborts(Attempt(mice[k].1, ds))
    requires forall k :: i < k < |mice| ==> Attempt(mice[k].1, ds).None?
    ensures ScanResult(mice, ds) == Ok((i, d))
  {
    if i > 0 {
      assert forall k :: 1 <= k < |mice| ==> mice[1..][k - 1] == mice[k];
      ScanFindsLast(mice[1..], ds, i - 1, d);
    } else {
      forall j, k | 0 <= j < |mice[1..]| && 0 <= k < |ds|
        ensures !Matches(mice[1..][j].1, ds[k])
      {
        assert Attempt(mice[j + 1].1, ds).None?;
      }
      ScanNotFound(mice[1..], ds);
    }
  }

  /** Conversely, a found mouse comes from the last profile with a match, and no profile aborted. */
  lemma {:induction false} ScanFoundIsLast(mice: ProfileTable, ds: seq<DeviceInfo>)
    requires ScanResult(mice, ds).Ok?
    ensures var (i, d) := ScanResult(mice, ds).value;
      (forall k :: i < k < |mice| ==> Attempt(mice[k].1, ds).None?) &&
      (forall k :: 0 <= k < |mice| ==> !Aborts(Attempt(mice[k].1, ds)))
  {
    var rest := ScanResult(mice[1..], ds);
    assert forall k :: 1 <= k < |mice| ==> mice[k] == mice[1..][k - 1];
    if rest.Ok? {
      ScanFoundIsLast(mice[1..], ds);
    } else {
      ScanNotFound(mice[1..], ds);
    }
  }

  /** An error other than `NotFound` is the abort of some profile's scan. */
  lemma {:induction false} ScanErrorCause(mice: ProfileTable, ds: seq<DeviceInfo>)
    requires ScanResult(mice, ds).Err? && ScanResult(mice, ds).error != NotFound
    ensures exists i :: 0 <= i < |mice| && Attempt(mice[i].1, ds) == Some(Err(ScanResult(mice, ds).error))
  {
    var a := Attempt(mice[0].1, ds);
    if !Aborts(a) {
      ScanErrorCause(mice[1..], ds);
      var i :| 0 <= i < |mice[1..]| && Attempt(mice[1..][i].1, ds) == Some(Err(ScanResult(mice, ds).error));
      assert mice[1..][i] == mice[i + 1];
    }
  }

  /**
   * What scanning the first `i` profiles has established: none aborted, and
   * `found` names the last of them whose scan found an interface, with that
   * interface, or is nothing when none did.
   */
  predicate Scanned(mice: ProfileTable, ds: seq<DeviceInfo>, i: nat, found: Option<(nat, nat)>)
  {
    i <= |mice| &&
    (forall k :: 0 <= k < i ==> !Aborts(Attempt(mice[k].1, ds))) &&
    (found.None? ==> forall k :: 0 <= k < i ==> Attempt(mice[k].1, ds).None?) &&
    (found.Some? ==>
      found.value.0 < i && Attempt(mice[found.value.0].1, ds) == Some(Ok(found.value.1)) &&
      forall k :: found.value.0 < k < i ==> Attempt(mice[k].1, ds).None?)
  }

  /** A profile with no matching interface leaves the find as it was. */
  lemma ScannedSkip(mice: ProfileTable, ds: seq<DeviceInfo>, i: nat, found: Option<(nat, nat)>)
    requires Scanned(mice, ds, i, found) && i < |mice| && Attempt(mice[i].1, ds).None?
    ensures Scanned(mice, ds, i + 1, found)
  {
  }

  /** A profile whose interface opens and wraps becomes the find. */
  lemma ScannedFind(mice: ProfileTable, ds: seq<DeviceInfo>, i: nat, found: Option<(nat, nat)>, d: nat)
    requires Scanned(mice, ds, i, found) && i < |mice| && Attempt(mice[i].1, ds) == Some(Ok(d))
    ensures Scanned(mice, ds, i + 1, Some((i, d)))
  {
  }

  /** A finished scan gives what `ScanResult` describes. */
  lemma ScannedAll(mice: ProfileTable, ds: seq<DeviceInfo>, found: Option<(nat, nat)>)
    requires Scanned(mice, ds, |mice|, found)
    ensures found.None? ==> ScanResult(mice, ds) == Err(NotFound)
    ensures found.Some? ==> ScanResult(mice, ds) == Ok(found.value)
  {
    if found.None? {
      ScanNotFound(mice, ds);
    } else {
      ScanFindsLast(mice, ds, found.value.0, found.value.1);
    }
  }

  /** A mouse freshly wrapped around a fresh handle, as the profile and interface dictate. */
  predicate WrapsInterface(m: Mouse, kind: Model, info: DeviceInfo)
    reads m, m.device
  {
    m.kind == kind && m.device.script == info.script && m.device.sent == []
  }

  /**
   * `open_first_mouse`: for each profile in table order, open and wrap the
   * first interface that belongs to it; a later find replaces an earlier one,
   * and an open or wrap error ends the scan at once.
   */
  method OpenFirstMouse(api: HidApi, mice: ProfileTable) returns (r: Result<Mouse, OpenFirstMouseError>)
    ensures r.Err? <==> ScanResult(mice, api.devices).Err?
    ensures r.Err? ==> r.error == ScanResult(mice, api.devices).error
    ensures r.Ok? ==>
      var (i, d) := ScanResult(mice, api.devices).value;
      fresh(r.value) && fresh(r.value.device) &&
      r.value.kind == LookupModel(mice[i].1.model).value &&
      r.value.device.script == api.devices[d].script && r.value.device.sent == []
  {
    ghost var ds := api.devices;
    var mouse: Option<Mouse> := None;
    ghost var found: Option<(nat, nat)> := None;
    for i := 0 to |mice|
      invariant Scanned(mice, ds, i, found)
      invariant mouse.None? <==> found.None?
      invariant mouse.Some? ==>
        fresh(mouse.value) && fresh(mouse.value.device) &&
        WrapsInterface(mouse.value, LookupModel(mice[found.value.0].1.model).value, ds[found.value.1])
    {
      var (name, profile) := mice[i];
      var devices := api.DeviceList();
      ghost var matched := false;
      ghost var before, foundBefore := mouse, found;
      for j := 0 to |devices|
        invariant forall k :: 0 <= k < j ==> !Matches(profile, devices[k])
        invariant !matched && mouse == before && found == foundBefore
      {
        var cur := devices[j];
        if cur.vendorId == profile.vendor && cur.productId == profile.product && cur.interfaceNumber == profile.endpoint {
          assert FirstMatch(profile, ds) == Some(j);
          var device := OpenDevice(cur);
          if device.Err? {
            ScanAborts(mice, ds, i, OpenMouse(device.error));
            return Err(OpenMouse(device.error));
          }
          var wrapped := GetMouse(profile.model, device.value);
          if wrapped.Err? {
            ScanAborts(mice, ds, i, WrapMouse(wrapped.error));
            return Err(WrapMouse(wrapped.error));
          }
          ScannedFind(mice, ds, i, found, j);
          mouse := Some(wrapped.value);
          found := Some((i, j));
          matched := true;
          break;
        }
      }
      if !matched {
        ScannedSkip(mice, ds, i, found);
      }
    }
    ScannedAll(mice, ds, found);
    match mouse
    case None =>
      r := Err(NotFound);
    case Some(m) =>
      r := Ok(m);
  }
}

// validation/usb_identifier.py, validation/device_binding_validator.py and the
// binding half of usb/secure_storage_service.py: what a file records about a
// device, when a presented device is accepted, and which key it derives.

module DeviceIdentity {
  import opened Results
  import opened ByteStrings
  import opened Text
  import opened MacInputs

  datatype HardwareDescriptor = HardwareDescriptor(
    vendorId: Option<string>, productId: Option<string>, hardwareSerial: Option<string>)

  datatype UsbDevice = UsbDevice(deviceId: string, mountPoint: string, volumeLabel: string)

  /** An attached device with what probing it reads: its identifier, always a string, and
      its hardware descriptor, if one resolves. */
  datatype Probe = Probe(device: UsbDevice, usbId: string, descriptor: Option<HardwareDescriptor>)

  /** What an access attempt presents. */
  datatype Reading = Reading(
    device: Option<UsbDevice>, usbId: Option<string>, machine: Option<string>, descriptor: Option<HardwareDescriptor>)

  function ReadingOf(p: Probe, machine: Option<string>): Reading {
    Reading(Some(p.device), Some(p.usbId), machine, p.descriptor)
  }

  datatype DeviceBinding = DeviceBinding(
    deviceId: Option<string>,
    volumeLabel: Option<string>,
    bound: bool,
    usbSerial: Option<string>,
    machineFingerprint: Option<string>,
    vendorId: Option<string>,
    productId: Option<string>,
    hardwareSerial: Option<string>)

  const Unbound := DeviceBinding(None, None, false, None, None, None, None, None)

  function BindTo(p: Probe, machineFingerprint: Option<string>): DeviceBinding {
    DeviceBinding(
      Some(p.device.deviceId), Some(p.device.volumeLabel), true, Some(p.usbId), machineFingerprint,
      if p.descriptor.Some? then p.descriptor.value.vendorId else None,
      if p.descriptor.Some? then p.descriptor.value.productId else None,
      if p.descriptor.Some? then p.descriptor.value.hardwareSerial else None)
  }

  /** Bound to a device and to no machine: the file key also gets a device layer. */
  predicate DeviceOnly(b: DeviceBinding) {
    b.bound && b.machineFingerprint.None?
  }

  // ---- The named checks ------------------------------------------------------

  datatype Check =
    | MetadataPresent | Hmac | MetadataIntegrity | FileIntegrity
    | Expiry | AccessCount | ReusedAccess
    | BindingHolds | UnauthorizedDevice | ClonedUsb | UsbIdentifier | MachineFingerprint | Hardware

  type Checks = map<Check, bool>

  predicate AllTrue(c: Checks) {
    forall n :: n in c ==> c[n]
  }

  lemma OneMoreCheck(c: Checks, name: Check, passed: bool)
    requires name !in c
    ensures AllTrue(c[name := passed]) <==> AllTrue(c) && passed
  {
    assert forall n :: n in c ==> c[name := passed][n] == c[n];
    assert c[name := passed][name] == passed;
  }

  predicate Fails(c: Checks, n: Check) {
    n in c && !c[n]
  }

  lemma NoFailures(c: Checks)
    ensures AllTrue(c) <==> forall n :: !Fails(c, n)
  {
    if !AllTrue(c) {
      var n :| n in c && !c[n];
      assert Fails(c, n);
    }
  }

  /** One recorded field against the presented one; nothing recorded means nothing asked. */
  predicate FieldMatches(recorded: Option<string>, presented: Option<string>) {
    recorded.None? || recorded == presented
  }

  predicate HardwareRecorded(b: DeviceBinding) {
    b.vendorId.Some? || b.productId.Some? || b.hardwareSerial.Some?
  }

  predicate HardwareMatches(b: DeviceBinding, d: Option<HardwareDescriptor>) {
    && d.Some?
    && FieldMatches(b.vendorId, d.value.vendorId)
    && FieldMatches(b.productId, d.value.productId)
    && FieldMatches(b.hardwareSerial, d.value.hardwareSerial)
  }

  predicate LabelMatches(b: DeviceBinding, device: Option<UsbDevice>) {
    b.volumeLabel.Some? && device.Some? && b.volumeLabel.value == device.value.volumeLabel
  }

  function UsbChecks(b: DeviceBinding, r: Reading): Checks {
    if r.usbId.None? then map[UnauthorizedDevice := false]
    else if b.usbSerial.None? then
      if b.deviceId.None? || b.deviceId == r.usbId then map[UsbIdentifier := true]
      else map[UsbIdentifier := false, UnauthorizedDevice := false]
    else
      var identity: Checks :=
        if b.usbSerial == r.usbId then map[UsbIdentifier := true]
        else if LabelMatches(b, r.device) then map[UsbIdentifier := false, ClonedUsb := false]
        else map[UsbIdentifier := false, UnauthorizedDevice := false];
      if HardwareRecorded(b) then identity[Hardware := HardwareMatches(b, r.descriptor)] else identity
  }

  function AxisChecks(b: DeviceBinding, r: Reading): Checks {
    var usb := if b.bound then UsbChecks(b, r) else map[];
    if b.machineFingerprint.Some? then usb[MachineFingerprint := b.machineFingerprint == r.machine] else usb
  }

  function DeviceChecks(b: DeviceBinding, r: Reading): Checks {
    AxisChecks(b, r)[BindingHolds := AllTrue(AxisChecks(b, r))]
  }

  /** The accumulator the validator fills in. */
  class DeviceBindingResult {
    var ok: bool
    var checks: Checks

    constructor ()
      ensures ok && checks == map[]
    {
      ok := true;
      checks := map[];
    }

    method Add(name: Check, passed: bool)
      modifies this
      ensures checks == old(checks)[name := passed] && ok == (old(ok) && passed)
      ensures name !in old(checks) && old(ok) == AllTrue(old(checks)) ==> ok == AllTrue(checks)
    {
      if name !in checks {
        OneMoreCheck(checks, name, passed);
      }
      checks := checks[name := passed];
      if !passed {
        ok := false;
      }
    }
  }

  class DeviceBindingValidator {
    constructor () {}

    method Validate(b: DeviceBinding, r: Reading) returns (result: DeviceBindingResult)
      ensures fresh(result)
      ensures result.checks == DeviceChecks(b, r) && result.ok == AllTrue(DeviceChecks(b, r))
    {
      result := new DeviceBindingResult();
      if b.bound {
        CheckDevice(result, b, r);
      }
      if b.machineFingerprint.Some? {
        result.Add(MachineFingerprint, b.machineFingerprint == r.machine);
      }
      result.Add(BindingHolds, result.ok);
    }

    method CheckDevice(result: DeviceBindingResult, b: DeviceBinding, r: Reading)
      requires result.ok && result.checks == map[]
      modifies result
      ensures result.checks == UsbChecks(b, r) && result.ok == AllTrue(UsbChecks(b, r))
    {
      if r.usbId.None? {
        result.Add(UnauthorizedDevice, false);
        return;
      }
      if b.usbSerial.None? {
        var matches := b.deviceId.None? || b.deviceId == r.usbId;
        result.Add(UsbIdentifier, matches);
        if !matches {
          result.Add(UnauthorizedDevice, false);
        }
        return;
      }
      if b.usbSerial == r.usbId {
        result.Add(UsbIdentifier, true);
      } else {
        result.Add(UsbIdentifier, false);
        if LabelMatches(b, r.device) {
          result.Add(ClonedUsb, false);
        } else {
          result.Add(UnauthorizedDevice, false);
        }
      }
      if HardwareRecorded(b) {
        result.Add(Hardware, HardwareMatches(b, r.descriptor));
      }
    }
  }

  // ---- What the checks accept -------------------------------------------------

  /** The device and machine conditions a record states, axis by axis. */
  predicate Accepts(b: DeviceBinding, r: Reading) {
    && (b.bound ==>
          && r.usbId.Some?
          && (if b.usbSerial.None? then FieldMatches(b.deviceId, r.usbId)
              else b.usbSerial == r.usbId && (HardwareRecorded(b) ==> HardwareMatches(b, r.descriptor))))
    && FieldMatches(b.machineFingerprint, r.machine)
  }

  lemma ChecksPassIffAccepted(b: DeviceBinding, r: Reading)
    ensures AllTrue(DeviceChecks(b, r)) <==> Accepts(b, r)
    ensures DeviceChecks(b, r)[BindingHolds] <==> Accepts(b, r)
    ensures !Accepts(b, r) ==> var c := DeviceChecks(b, r);
              Fails(c, UnauthorizedDevice) || Fails(c, UsbIdentifier) || Fails(c, Hardware) || Fails(c, MachineFingerprint)
  {
    var axis := AxisChecks(b, r);
    OneMoreCheck(axis, BindingHolds, AllTrue(axis));
    if AllTrue(axis) {
      assert b.bound && b.usbSerial.Some? && HardwareRecorded(b) && r.usbId.Some? ==> axis[Hardware];
      assert b.machineFingerprint.Some? ==> axis[MachineFingerprint];
      assert b.bound && r.usbId.None? ==> Fails(axis, UnauthorizedDevice);
      assert b.bound && r.usbId.Some? ==> axis[UsbIdentifier];
    }
  }

  /** Exactly what the checks ask of a reading, field by field: every recorded field to be the
      presented one, the identifier of an older record to be its device id if it has one, and
      nothing of a device the record is not bound to. */
  lemma ChecksPassExactly(b: DeviceBinding, r: Reading)
    ensures AllTrue(DeviceChecks(b, r)) <==>
              && (b.machineFingerprint.Some? ==> r.machine == b.machineFingerprint)
              && (b.bound && b.usbSerial.Some? ==>
                    && r.usbId == b.usbSerial
                    && (b.vendorId.Some? ==> r.descriptor.Some? && r.descriptor.value.vendorId == b.vendorId)
                    && (b.productId.Some? ==> r.descriptor.Some? && r.descriptor.value.productId == b.productId)
                    && (b.hardwareSerial.Some? ==> r.descriptor.Some? && r.descriptor.value.hardwareSerial == b.hardwareSerial))
              && (b.bound && b.usbSerial.None? ==> r.usbId.Some? && (b.deviceId.Some? ==> r.usbId == b.deviceId))
  {
    hide AllTrue, DeviceChecks;
    ChecksPassIffAccepted(b, r);
  }

  /** A clone is reported exactly when the label matches and the identifier does not. */
  lemma CloneReported(b: DeviceBinding, r: Reading)
    ensures ClonedUsb in DeviceChecks(b, r) <==>
            && b.bound && r.usbId.Some? && b.usbSerial.Some? && b.usbSerial != r.usbId
            && r.device.Some? && b.volumeLabel == Some(r.device.value.volumeLabel)
    ensures ClonedUsb in DeviceChecks(b, r) ==> UnauthorizedDevice !in DeviceChecks(b, r)
  {}

  /** The device a file was just bound to is accepted, on the bound machine or, with no
      machine binding, on any. */
  lemma BoundDeviceAccepted(p: Probe, machineFingerprint: Option<string>, machine: Option<string>)
    requires FieldMatches(machineFingerprint, machine)
    ensures Accepts(BindTo(p, machineFingerprint), ReadingOf(p, machine))
  {}

  // ---- The device key ----------------------------------------------------------

  function OrEmpty(s: Option<string>): string {
    if s.Some? then s.value else ""
  }

  /** serial|vendor|product|hardware serial, with unread fields as empty strings. */
  function Material(usbId: Option<string>, d: Option<HardwareDescriptor>): Bytes {
    var h := if d.Some? then d.value else HardwareDescriptor(None, None, None);
    Joined(Encode(OrEmpty(usbId)),
           Joined(Encode(OrEmpty(h.vendorId)),
                  Joined(Encode(OrEmpty(h.productId)), Encode(OrEmpty(h.hardwareSerial)))))
  }

  /** All three hardware fields were read when the file was bound. */
  predicate FullyRecorded(p: Probe) {
    p.descriptor.Some? && p.descriptor.value.vendorId.Some? && p.descriptor.value.productId.Some?
    && p.descriptor.value.hardwareSerial.Some?
  }

  ghost predicate AcceptedShareMaterial(p: Probe) {
    forall r: Reading :: Accepts(BindTo(p, None), r) ==> Material(r.usbId, r.descriptor) == Material(Some(p.usbId), p.descriptor)
  }

  /** Every device the policy check accepts derives the enrolled device's key exactly when
      all three hardware fields were recorded; otherwise some accepted device cannot decrypt. */
  lemma AcceptedDevicesDeriveTheKey(p: Probe)
    ensures AcceptedShareMaterial(p) <==> FullyRecorded(p)
  {
    var b := BindTo(p, None);
    if FullyRecorded(p) {
      forall r: Reading | Accepts(b, r) ensures Material(r.usbId, r.descriptor) == Material(Some(p.usbId), p.descriptor) {
        assert r.descriptor == p.descriptor;
      }
    } else {
      var other := Filled(b);
      var r := Reading(Some(p.device), Some(p.usbId), None, Some(other));
      assert Accepts(b, r);
      MissingFieldChangesMaterial(p);
      assert Material(r.usbId, r.descriptor) != Material(Some(p.usbId), p.descriptor);
    }
  }

  /** What was recorded, with every unrecorded field now reading "x". */
  function Filled(b: DeviceBinding): HardwareDescriptor {
    HardwareDescriptor(
      if b.vendorId.Some? then b.vendorId else Some("x"),
      if b.productId.Some? then b.productId else Some("x"),
      if b.hardwareSerial.Some? then b.hardwareSerial else Some("x"))
  }

  lemma MissingFieldChangesMaterial(p: Probe)
    requires !FullyRecorded(p)
    ensures Material(Some(p.usbId), Some(Filled(BindTo(p, None)))) != Material(Some(p.usbId), p.descriptor)
  {
    assert Encode("x") == [120] by { assert "x"[1..] == ""; }
  }

  predicate Plain(s: Option<string>) {
    s.Some? && s.value != "" && '|' !in s.value
  }

  /** Every recorded part of the fingerprint is present, non-empty and separator-free. */
  predicate PlainlyRecorded(p: Probe) {
    FullyRecorded(p) && Plain(Some(p.usbId)) && Plain(p.descriptor.value.vendorId)
    && Plain(p.descriptor.value.productId) && Plain(p.descriptor.value.hardwareSerial)
  }

  function Bars(b: Bytes): nat {
    if b == [] then 0 else Bars(b[1..]) + if b[0] == BAR then 1 else 0
  }

  lemma {:induction false} BarsAdd(a: Bytes, b: Bytes)
    ensures Bars(a + b) == Bars(a) + Bars(b)
  {
    if a == [] {
      assert a + b == b;
    } else {
      BarsAdd(a[1..], b);
      assert (a + b)[1..] == a[1..] + b;
    }
  }

  lemma {:induction false} BarsZero(b: Bytes)
    ensures Bars(b) == 0 <==> BarFree(b)
  {
    if b != [] {
      BarsZero(b[1..]);
      assert b == [b[0]] + b[1..];
    }
  }

  lemma BarsOfJoined(a: Bytes, b: Bytes)
    ensures Bars(Joined(a, b)) == Bars(a) + 1 + Bars(b)
  {
    BarsAdd(a, [BAR] + b);
    BarsAdd([BAR], b);
    assert Bars([BAR]) == 1 by { assert [BAR][1..] == []; }
  }

  /** Four separator-free parts are determined by their join, whatever it is compared with. */
  lemma FourPartsDetermined(a: Bytes, b: Bytes, c: Bytes, d: Bytes, w: Bytes, x: Bytes, y: Bytes, z: Bytes)
    requires BarFree(a) && BarFree(b) && BarFree(c) && BarFree(d)
    requires Joined(a, Joined(b, Joined(c, d))) == Joined(w, Joined(x, Joined(y, z)))
    ensures a == w && b == x && c == y && d == z
  {
    BarsOfJoined(c, d);
    BarsOfJoined(b, Joined(c, d));
    BarsOfJoined(a, Joined(b, Joined(c, d)));
    BarsOfJoined(y, z);
    BarsOfJoined(x, Joined(y, z));
    BarsOfJoined(w, Joined(x, Joined(y, z)));
    BarsZero(a);
    BarsZero(b);
    BarsZero(c);
    BarsZero(d);
    BarsZero(w);
    BarsZero(x);
    BarsZero(y);
    BarFreeSplits(a, Joined(b, Joined(c, d)), w, Joined(x, Joined(y, z)));
    BarFreeSplits(b, Joined(c, d), x, Joined(y, z));
    BarFreeSplits(c, d, y, z);
  }

  lemma EncodingDecides(recorded: Option<string>, presented: Option<string>)
    requires Plain(recorded) && Encode(OrEmpty(recorded)) == Encode(OrEmpty(presented))
    ensures recorded == presented
  {
    EncodeInjective(OrEmpty(recorded), OrEmpty(presented));
  }

  /** With a plainly recorded fingerprint the policy check and the derived key never
      disagree: a presented device is accepted exactly when it derives the same key. */
  lemma PolicyAgreesWithDeviceKey(p: Probe, r: Reading)
    requires PlainlyRecorded(p)
    ensures Accepts(BindTo(p, None), r) <==> Material(r.usbId, r.descriptor) == Material(Some(p.usbId), p.descriptor)
  {
    var d := p.descriptor.value;
    if Material(r.usbId, r.descriptor) == Material(Some(p.usbId), p.descriptor) {
      var h := if r.descriptor.Some? then r.descriptor.value else HardwareDescriptor(None, None, None);
      EncodingIsBarFree(p.usbId);
      EncodingIsBarFree(d.vendorId.value);
      EncodingIsBarFree(d.productId.value);
      EncodingIsBarFree(d.hardwareSerial.value);
      FourPartsDetermined(
        Encode(p.usbId), Encode(OrEmpty(d.vendorId)), Encode(OrEmpty(d.productId)), Encode(OrEmpty(d.hardwareSerial)),
        Encode(OrEmpty(r.usbId)), Encode(OrEmpty(h.vendorId)), Encode(OrEmpty(h.productId)), Encode(OrEmpty(h.hardwareSerial)));
      EncodingDecides(Some(p.usbId), r.usbId);
      EncodingDecides(d.vendorId, h.vendorId);
      EncodingDecides(d.productId, h.productId);
      EncodingDecides(d.hardwareSerial, h.hardwareSerial);
    }
  }

  lemma JoinedAssociates(a: Bytes, b: Bytes, c: Bytes)
    ensures Joined(Joined(a, b), c) == Joined(a, Joined(b, c))
  {}

  lemma BarredEncoding(s: string, t: string)
    ensures Encode(s + "|" + t) == Joined(Encode(s), Encode(t))
  {
    EncodeAppend(s, "|" + t);
    EncodeAppend("|", t);
    assert s + "|" + t == s + ("|" + t);
    assert Encode("|") == [BAR] by { assert "|"[1..] == ""; }
  }

  /** A separator may sit on either side of a field boundary without changing the join. */
  lemma BarMoves(x: string, y: string, z: string, rest: Bytes)
    ensures Joined(Encode(x + "|" + y), Encode(z)) == Joined(Encode(x), Encode(y + "|" + z))
    ensures Joined(Encode(x + "|" + y), Joined(Encode(z), rest)) == Joined(Encode(x), Joined(Encode(y + "|" + z), rest))
  {
    hide Encode, Joined;
    BarredEncoding(x, y);
    BarredEncoding(y, z);
    JoinedAssociates(Encode(x), Encode(y), Encode(z));
    JoinedAssociates(Encode(x), Encode(y), Joined(Encode(z), rest));
    JoinedAssociates(Encode(y), Encode(z), rest);
  }

  /** A separator in a vendor token: the policy check rejects a device whose tokens divide
      there instead, yet that device derives the enrolled device's key. */
  lemma SeparatorLetsAnotherDeviceDeriveTheKey(
    device: UsbDevice, usbId: string, x: string, y: string, product: string, serial: string)
    ensures var p := Probe(device, usbId, Some(HardwareDescriptor(Some(x + "|" + y), Some(product), Some(serial))));
            var r := Reading(Some(device), Some(usbId), None,
                             Some(HardwareDescriptor(Some(x), Some(y + "|" + product), Some(serial))));
            && Material(r.usbId, r.descriptor) == Material(Some(p.usbId), p.descriptor)
            && !Accepts(BindTo(p, None), r)
  {
    hide Encode, Joined;
    BarMoves(x, y, product, Encode(serial));
    assert |x + "|" + y| > |x|;
  }

  lemma SplitAtBar(s: string) returns (x: string, y: string)
    requires '|' in s
    ensures s == x + "|" + y && s != x && s != y
  {
    var i :| 0 <= i < |s| && s[i] == '|';
    x, y := s[..i], s[i + 1..];
  }

  /** A fully recorded device with an empty or separated field: another reading, which the
      policy check rejects, has the same fingerprint. */
  lemma RejectedYetSameMaterial(p: Probe) returns (r: Reading)
    requires FullyRecorded(p) && !PlainlyRecorded(p)
    ensures Material(r.usbId, r.descriptor) == Material(Some(p.usbId), p.descriptor) && !Accepts(BindTo(p, None), r)
  {
    hide Encode, Joined;
    var d := p.descriptor.value;
    r := Reading(Some(p.device), Some(p.usbId), None, p.descriptor);
    if p.usbId == "" {
      r := r.(usbId := None);
    } else if '|' in p.usbId {
      var x, y := SplitAtBar(p.usbId);
      BarMoves(x, y, d.vendorId.value, Joined(Encode(d.productId.value), Encode(d.hardwareSerial.value)));
      r := r.(usbId := Some(x), descriptor := Some(d.(vendorId := Some(y + "|" + d.vendorId.value))));
    } else if d.vendorId.value == "" {
      r := r.(descriptor := Some(d.(vendorId := None)));
    } else if '|' in d.vendorId.value {
      var x, y := SplitAtBar(d.vendorId.value);
      SeparatorLetsAnotherDeviceDeriveTheKey(p.device, p.usbId, x, y, d.productId.value, d.hardwareSerial.value);
      r := r.(descriptor := Some(HardwareDescriptor(Some(x), Some(y + "|" + d.productId.value), d.hardwareSerial)));
    } else if d.productId.value == "" {
      r := r.(descriptor := Some(d.(productId := None)));
    } else if '|' in d.productId.value {
      var x, y := SplitAtBar(d.productId.value);
      BarMoves(x, y, d.hardwareSerial.value, []);
      r := r.(descriptor := Some(d.(productId := Some(x), hardwareSerial := Some(y + "|" + d.hardwareSerial.value))));
    } else if d.hardwareSerial.value == "" {
      r := r.(descriptor := Some(d.(hardwareSerial := None)));
    } else {
      var x, y := SplitAtBar(d.hardwareSerial.value);
      BarMoves(d.productId.value, x, y, []);
      r := r.(descriptor := Some(d.(productId := Some(d.productId.value + "|" + x), hardwareSerial := Some(y))));
    }
  }

  ghost predicate PolicyAndKeyAgree(p: Probe) {
    forall r: Reading ::
      Accepts(BindTo(p, None), r) <==> Material(r.usbId, r.descriptor) == Material(Some(p.usbId), p.descriptor)
  }

  /** The policy check and the device key agree on every reading exactly when all four recorded
      fields are present, non-empty and free of the separator. */
  lemma PolicyAndKeyAgreeExactly(p: Probe)
    ensures PolicyAndKeyAgree(p) <==> PlainlyRecorded(p)
  {
    hide Material, Accepts;
    if PlainlyRecorded(p) {
      forall r: Reading
        ensures Accepts(BindTo(p, None), r) <==> Material(r.usbId, r.descriptor) == Material(Some(p.usbId), p.descriptor)
      {
        PolicyAgreesWithDeviceKey(p, r);
      }
    } else if FullyRecorded(p) {
      var r := RejectedYetSameMaterial(p);
    } else {
      AcceptedDevicesDeriveTheKey(p);
    }
  }
}

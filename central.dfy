/**
 * The connection handler of the BLE central client. Its state is the
 * connection handle, the characteristic handle and the LED; every call into
 * the radio is a command appended to a log. `Step` and `LoopStep` say what
 * one event and one pass of the main loop do to that state, the class
 * `Client` does it in place, and the lemmas say what `Step` means.
 */
module Central {
  import opened BleTypes
  import opened Advertising

  /** Everything the handler can change: both handles, the LED and the radio commands issued so far. */
  datatype Session = Session(connHandle: Option<int>, charHandle: Option<int>, ledOn: bool, log: seq<Command>)

  /** The scan-result test: the payload decodes without raising and lists the target service. */
  predicate Advertises(adv: Bytes) {
    var r := Decode(adv, 0);
    r.Decoded? && ServiceUuid in r.uuids
  }

  /** The two writes that subscribe to the characteristic at `valueHandle` and greet the peer. */
  function Subscribe(conn: Option<int>, valueHandle: int): seq<Command> {
    [Write(conn, valueHandle + 1, NotifyEnable, WriteWithResponse),
     Write(conn, valueHandle, Greeting, WriteWithResponse)]
  }

  /** Forget the connection, light the LED and scan again. */
  function Reconnect(s: Session): Session {
    Session(None, None, true, s.log + [ScanStart(ScanDurationMs)])
  }

  /** What handling one event does. */
  function Step(s: Session, e: Event): Session {
    match e
    case ScanResult(addrType, addr, _, _, adv) =>
      if Advertises(adv) then s.(log := s.log + [ScanStop, GapConnect(addrType, addr)]) else s
    case PeripheralConnect(h, _, _) =>
      s.(connHandle := Some(h), ledOn := false, log := s.log + [DiscoverServices(h)])
    case PeripheralDisconnect(_, _, _) =>
      Reconnect(s)
    case ServiceResult(_, start, end, uuid) =>
      if uuid == ServiceUuid then s.(log := s.log + [DiscoverCharacteristics(s.connHandle, start, end)]) else s
    case CharacteristicResult(_, _, valueHandle, _, uuid) =>
      s.(charHandle := Some(valueHandle),
         log := if uuid == CharUuid then s.log + Subscribe(s.connHandle, valueHandle) else s.log)
    case Notify(_, _, _) => s
    case Other(_) => s
  }

  /** One pass of the main loop: while not connected, light the LED and scan. */
  function LoopStep(s: Session): Session {
    if s.connHandle == None then s.(ledOn := true, log := s.log + [ScanStart(ScanDurationMs)]) else s
  }

  /** Handling `es` one after another, each to completion. */
  function Run(s: Session, es: seq<Event>): Session
    decreases |es|
  {
    if es == [] then s else Run(Step(s, es[0]), es[1..])
  }

  class Client {
    var connHandle: Option<int>
    var charHandle: Option<int>
    var ledOn: bool
    var log: seq<Command>

    ghost function State(): Session
      reads this
    {
      Session(connHandle, charHandle, ledOn, log)
    }

    /** At start-up neither handle is set; the LED pin starts in whatever state `led` says. */
    constructor (led: bool)
      ensures State() == Session(None, None, led, [])
    {
      connHandle := None;
      charHandle := None;
      ledOn := led;
      log := [];
    }

    method TryReconnect()
      modifies this
      ensures State() == Reconnect(old(State()))
    {
      connHandle := None;
      charHandle := None;
      ledOn := true;
      log := log + [ScanStart(ScanDurationMs)];
    }

    method HandleEvent(e: Event)
      modifies this
      ensures State() == Step(old(State()), e)
    {
      match e
      case ScanResult(addrType, addr, _, _, adv) =>
        var services := DecodeServices(adv);
        if services.Decoded? && ServiceUuid in services.uuids {
          log := log + [ScanStop];
          log := log + [GapConnect(addrType, addr)];
        }
      case PeripheralConnect(h, _, _) =>
        connHandle := Some(h);
        ledOn := false;
        log := log + [DiscoverServices(h)];
      case PeripheralDisconnect(_, _, _) =>
        TryReconnect();
      case ServiceResult(_, start, end, uuid) =>
        if uuid == ServiceUuid {
          log := log + [DiscoverCharacteristics(connHandle, start, end)];
        }
      case CharacteristicResult(_, _, valueHandle, _, uuid) =>
        charHandle := Some(valueHandle);
        if uuid == CharUuid {
          log := log + [Write(connHandle, valueHandle + 1, NotifyEnable, WriteWithResponse)];
          log := log + [Write(connHandle, valueHandle, Greeting, WriteWithResponse)];
        }
      case Notify(_, _, _) =>
      case Other(_) =>
    }

    method MainLoopStep()
      modifies this
      ensures State() == LoopStep(old(State()))
    {
      if connHandle == None {
        ledOn := true;
        log := log + [ScanStart(ScanDurationMs)];
      }
    }
  }

  // ---------------------------------------------------------------------
  // One event at a time

  /** Disconnect, from any state: both handles cleared, LED on, one 30-second scan and nothing else. */
  lemma DisconnectRecovers(s: Session, h: int, addrType: int, addr: Bytes)
    ensures var t := Step(s, PeripheralDisconnect(h, addrType, addr));
      t.connHandle == None && t.charHandle == None && t.ledOn && t.log == s.log + [ScanStart(30000)]
  {
  }

  /**
   * Scan result: scan-stop and then connect to the advertiser, exactly when
   * the payload lists the target service; no command otherwise; neither
   * handle nor the LED changes.
   */
  lemma ScanResultConnectsIffAdvertised(s: Session, addrType: int, addr: Bytes, advType: int, rssi: int, adv: Bytes)
    ensures var t := Step(s, ScanResult(addrType, addr, advType, rssi, adv));
      t.connHandle == s.connHandle && t.charHandle == s.charHandle && t.ledOn == s.ledOn
      && (Advertises(adv) ==> t.log == s.log + [ScanStop, GapConnect(addrType, addr)])
      && (!Advertises(adv) ==> t.log == s.log)
  {
  }

  /** A payload in which the target's 16 bytes never appear issues no command. */
  lemma ScanResultWithoutTargetIsIgnored(s: Session, addrType: int, addr: Bytes, advType: int, rssi: int, adv: Bytes)
    requires !Occurs(ServiceUuid, adv)
    ensures Step(s, ScanResult(addrType, addr, advType, rssi, adv)) == s
  {
    if Decode(adv, 0).Decoded? {
      DecodedUuidsOccur(adv, 0);
    }
  }

  /** Connect: the handle is recorded, the LED goes off, and services are discovered on that handle. */
  lemma ConnectDiscoversServices(s: Session, h: int, addrType: int, addr: Bytes)
    ensures var t := Step(s, PeripheralConnect(h, addrType, addr));
      t.connHandle == Some(h) && t.charHandle == s.charHandle && !t.ledOn && t.log == s.log + [DiscoverServices(h)]
  {
  }

  /**
   * Service result: characteristic discovery over the result's own handle
   * range, on the current connection, exactly when the UUID is the target's.
   */
  lemma ServiceResultDiscoversIffTarget(s: Session, h: int, start: int, end: int, uuid: Bytes)
    ensures var t := Step(s, ServiceResult(h, start, end, uuid));
      t.connHandle == s.connHandle && t.charHandle == s.charHandle && t.ledOn == s.ledOn
      && t.log == s.log + (if uuid == ServiceUuid then [DiscoverCharacteristics(s.connHandle, start, end)] else [])
  {
  }

  /**
   * Characteristic result: the characteristic handle becomes the value
   * handle whatever the UUID; on the target UUID, the notification-enable
   * write at value handle + 1 and then the greeting at the value handle.
   */
  lemma CharacteristicResultSubscribesIffTarget(s: Session, h: int, defHandle: int, valueHandle: int, props: int, uuid: Bytes)
    ensures var t := Step(s, CharacteristicResult(h, defHandle, valueHandle, props, uuid));
      t.connHandle == s.connHandle && t.charHandle == Some(valueHandle) && t.ledOn == s.ledOn
      && (uuid == CharUuid ==> t.log == s.log + [Write(s.connHandle, valueHandle + 1, [0x01, 0x00], 1),
                                                  Write(s.connHandle, valueHandle, Greeting, 1)])
      && (uuid != CharUuid ==> t.log == s.log)
  {
  }

  /** Notifications and unhandled codes change nothing. */
  lemma NotifyAndOtherChangeNothing(s: Session, h: int, valueHandle: int, data: Bytes, code: UnhandledCode)
    ensures Step(s, Notify(h, valueHandle, data)) == s
    ensures Step(s, Other(code)) == s
  {
  }

  /** The main loop scans, and lights the LED, exactly when there is no connection. */
  lemma LoopStepScansIffDisconnected(s: Session)
    ensures var t := LoopStep(s);
      t.connHandle == s.connHandle && t.charHandle == s.charHandle
      && (s.connHandle == None ==> t.ledOn && t.log == s.log + [ScanStart(30000)])
      && (s.connHandle != None ==> t == s)
  {
  }

  // ---------------------------------------------------------------------
  // Sequences of events

  /** The commands a run of service results issues, on connection `conn`. */
  function DiscoveryCommands(conn: Option<int>, es: seq<Event>): seq<Command>
    requires forall k :: 0 <= k < |es| ==> es[k].ServiceResult?
  {
    if es == [] then []
    else
      (if es[0].uuid == ServiceUuid then [DiscoverCharacteristics(conn, es[0].startHandle, es[0].endHandle)] else [])
      + DiscoveryCommands(conn, es[1..])
  }

  /**
   * A run of service results changes neither handle nor the LED and issues
   * one characteristic discovery per result naming the target, in order.
   */
  lemma {:induction false} ServiceResultsDiscover(s: Session, es: seq<Event>)
    requires forall k :: 0 <= k < |es| ==> es[k].ServiceResult?
    ensures Run(s, es) == s.(log := s.log + DiscoveryCommands(s.connHandle, es))
    decreases |es|
  {
    if es == [] {
      assert s.log + [] == s.log;
    } else {
      var t := Step(s, es[0]);
      ServiceResultsDiscover(t, es[1..]);
      assert t.connHandle == s.connHandle;
      assert t.log + DiscoveryCommands(s.connHandle, es[1..]) == s.log + DiscoveryCommands(s.connHandle, es);
    }
  }

  lemma {:induction false} OneMatchOneCommand(conn: Option<int>, es: seq<Event>, m: nat)
    requires forall k :: 0 <= k < |es| ==> es[k].ServiceResult?
    requires m < |es| && es[m].uuid == ServiceUuid
    requires forall k :: 0 <= k < |es| && k != m ==> es[k].uuid != ServiceUuid
    ensures DiscoveryCommands(conn, es) == [DiscoverCharacteristics(conn, es[m].startHandle, es[m].endHandle)]
    decreases |es|
  {
    if m == 0 {
      NoMatchNoCommand(conn, es[1..]);
    } else {
      OneMatchOneCommand(conn, es[1..], m - 1);
    }
  }

  lemma {:induction false} NoMatchNoCommand(conn: Option<int>, es: seq<Event>)
    requires forall k :: 0 <= k < |es| ==> es[k].ServiceResult? && es[k].uuid != ServiceUuid
    ensures DiscoveryCommands(conn, es) == []
    decreases |es|
  {
    if es != [] {
      NoMatchNoCommand(conn, es[1..]);
    }
  }

  /**
   * Discovery converges: among service results of which exactly one names
   * the target, wherever it stands, the only command issued is the
   * characteristic discovery over that result's handle range.
   */
  lemma ServiceDiscoveryConverges(s: Session, es: seq<Event>, m: nat)
    requires forall k :: 0 <= k < |es| ==> es[k].ServiceResult?
    requires m < |es| && es[m].uuid == ServiceUuid
    requires forall k :: 0 <= k < |es| && k != m ==> es[k].uuid != ServiceUuid
    ensures Run(s, es) == s.(log := s.log + [DiscoverCharacteristics(s.connHandle, es[m].startHandle, es[m].endHandle)])
  {
    ServiceResultsDiscover(s, es);
    OneMatchOneCommand(s.connHandle, es, m);
  }

  // ---------------------------------------------------------------------
  // Invariants

  /** The LED is lit exactly while there is no connection. */
  predicate Indicating(s: Session) {
    s.ledOn <==> s.connHandle == None
  }

  /** Every event keeps the LED in step with the connection. */
  lemma StepKeepsIndicating(s: Session, e: Event)
    requires Indicating(s)
    ensures Indicating(Step(s, e))
  {
  }

  /**
   * The first pass of the main loop (no connection yet) brings the LED in
   * step with the connection, and every later pass and event keeps it so.
   */
  lemma {:induction false} IndicatingHolds(s: Session, es: seq<Event>)
    requires s.connHandle == None || Indicating(s)
    ensures Indicating(LoopStep(s))
    ensures Indicating(Run(LoopStep(s), es))
    decreases |es|
  {
    if es != [] {
      StepKeepsIndicating(LoopStep(s), es[0]);
      RunKeepsIndicating(Step(LoopStep(s), es[0]), es[1..]);
    }
  }

  lemma {:induction false} RunKeepsIndicating(s: Session, es: seq<Event>)
    requires Indicating(s)
    ensures Indicating(Run(s, es))
    decreases |es|
  {
    if es != [] {
      StepKeepsIndicating(s, es[0]);
      RunKeepsIndicating(Step(s, es[0]), es[1..]);
    }
  }

  /** No command is ever taken back: every run only appends to the log. */
  lemma {:induction false} RunOnlyAppends(s: Session, es: seq<Event>)
    ensures |s.log| <= |Run(s, es).log| && Run(s, es).log[..|s.log|] == s.log
    decreases |es|
  {
    if es != [] {
      var t := Step(s, es[0]);
      RunOnlyAppends(t, es[1..]);
      assert t.log[..|s.log|] == s.log;
    }
  }

  // ---------------------------------------------------------------------
  // A whole session

  /**
   * From any state: a disconnect, an advertisement listing only the target
   * service, a connect, a non-matching and then a matching service result, the
   * target characteristic at value handle `vh`, and a notification issue
   * exactly scan, scan-stop, connect, service discovery, characteristic
   * discovery over the matching range, the notification-enable write at
   * `vh + 1` and the greeting at `vh`, and leave the client connected with
   * the LED off.
   */
  lemma FullSession(s: Session, addrType: int, addr: Bytes, advType: int, rssi: int, h: int,
                    other: Bytes, start1: int, end1: int, start2: int, end2: int,
                    defHandle: int, vh: int, props: int, note: Bytes)
    requires other != ServiceUuid
    ensures Run(s, [PeripheralDisconnect(h, addrType, addr),
                    ScanResult(addrType, addr, advType, rssi, ServiceList(0x07, [ServiceUuid])),
                    PeripheralConnect(h, addrType, addr),
                    ServiceResult(h, start1, end1, other),
                    ServiceResult(h, start2, end2, ServiceUuid),
                    CharacteristicResult(h, defHandle, vh, props, CharUuid),
                    Notify(h, vh, note)])
         == Session(Some(h), Some(vh), false,
                    s.log + [ScanStart(30000), ScanStop, GapConnect(addrType, addr), DiscoverServices(h),
                             DiscoverCharacteristics(Some(h), start2, end2),
                             Write(Some(h), vh + 1, [0x01, 0x00], 1), Write(Some(h), vh, Greeting, 1)])
  {
    var adv := ServiceList(0x07, [ServiceUuid]);
    TargetListAdvertised();
    var s1 := Reconnect(s);
    var s2 := s1.(log := s1.log + [ScanStop, GapConnect(addrType, addr)]);
    var s3 := s2.(connHandle := Some(h), ledOn := false, log := s2.log + [DiscoverServices(h)]);
    var s5 := s3.(log := s3.log + [DiscoverCharacteristics(Some(h), start2, end2)]);
    var s6 := s5.(charHandle := Some(vh), log := s5.log + Subscribe(Some(h), vh));
    assert Step(s, PeripheralDisconnect(h, addrType, addr)) == s1;
    ScanResultConnectsIffAdvertised(s1, addrType, addr, advType, rssi, adv);
    assert Step(s1, ScanResult(addrType, addr, advType, rssi, adv)) == s2;
    assert Step(s2, PeripheralConnect(h, addrType, addr)) == s3;
    assert Step(s3, ServiceResult(h, start1, end1, other)) == s3;
    assert Step(s3, ServiceResult(h, start2, end2, ServiceUuid)) == s5;
    assert Step(s5, CharacteristicResult(h, defHandle, vh, props, CharUuid)) == s6;
    assert Step(s6, Notify(h, vh, note)) == s6;
    RunSteps(s, [PeripheralDisconnect(h, addrType, addr),
                 ScanResult(addrType, addr, advType, rssi, adv),
                 PeripheralConnect(h, addrType, addr),
                 ServiceResult(h, start1, end1, other),
                 ServiceResult(h, start2, end2, ServiceUuid),
                 CharacteristicResult(h, defHandle, vh, props, CharUuid),
                 Notify(h, vh, note)],
             [s1, s2, s3, s3, s5, s6, s6]);
  }

  /** The advertisement used above lists the target service. */
  lemma TargetListAdvertised()
    ensures Advertises(ServiceList(0x07, [ServiceUuid]))
  {
    ServiceListRoundTrip(0x07, [ServiceUuid]);
  }

  /** A run ends in the last of the states its events step through one by one. */
  lemma {:induction false} RunSteps(s: Session, es: seq<Event>, ss: seq<Session>)
    requires |ss| == |es| > 0
    requires Step(s, es[0]) == ss[0]
    requires forall k :: 0 < k < |es| ==> Step(ss[k - 1], es[k]) == ss[k]
    ensures Run(s, es) == ss[|ss| - 1]
    decreases |es|
  {
    if |es| > 1 {
      RunSteps(ss[0], es[1..], ss[1..]);
    }
  }
}

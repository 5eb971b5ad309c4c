/**
 * Values shared by the advertisement parser and the connection handler of
 * the BLE central client: bytes, UUIDs, the radio events the handler is
 * driven by and the radio commands it issues.
 */
module BleTypes {

  datatype Option<T> = None | Some(value: T)

  /** An octet of a payload, as Python's indexing of a bytes object gives it. */
  type Byte = x: int | 0 <= x < 256

  /**
   * A UUID is compared by its raw bytes, as MicroPython's bluetooth.UUID
   * compares its kind and data. A 128-bit UUID is 16 bytes, stored in the
   * little-endian order in which it also travels over the air.
   */
  type Bytes = seq<Byte>

  /** 6e400001-b5a3-f393-e0a9-e50e24dcca9e, the service the client looks for. */
  const ServiceUuid: Bytes :=
    [0x9e, 0xca, 0xdc, 0x24, 0x0e, 0xe5, 0xa9, 0xe0, 0x93, 0xf3, 0xa3, 0xb5, 0x01, 0x00, 0x40, 0x6e]

  /** 6e400003-b5a3-f393-e0a9-e50e24dcca9e, the characteristic it subscribes to. */
  const CharUuid: Bytes :=
    [0x9e, 0xca, 0xdc, 0x24, 0x0e, 0xe5, 0xa9, 0xe0, 0x93, 0xf3, 0xa3, 0xb5, 0x03, 0x00, 0x40, 0x6e]

  /** Duration in milliseconds of every scan the client starts. */
  const ScanDurationMs: int := 30000

  /** `01 00`: the little-endian value 0x0001 that enables notifications in a CCC descriptor. */
  const NotifyEnable: Bytes := [0x01, 0x00]

  /** The greeting, `Hola desde cliente` in ASCII. */
  const Greeting: Bytes :=
    [0x48, 0x6f, 0x6c, 0x61, 0x20, 0x64, 0x65, 0x73, 0x64, 0x65,
     0x20, 0x63, 0x6c, 0x69, 0x65, 0x6e, 0x74, 0x65]

  /** Write mode 1 of gattc_write: write with response. */
  const WriteWithResponse: int := 1

  /** An event code `ble_irq` has no branch for. */
  type UnhandledCode = c: int | c !in {5, 7, 8, 9, 11, 18}

  /**
   * One radio event as delivered to the interrupt handler. Each variant holds
   * the fields of the tuple MicroPython passes with that event code:
   * 5 ScanResult, 7 PeripheralConnect, 8 PeripheralDisconnect,
   * 9 ServiceResult, 11 CharacteristicResult, 18 Notify; Other stands for
   * every code the handler has no branch for.
   */
  datatype Event =
    | ScanResult(addrType: int, addr: Bytes, advType: int, rssi: int, advData: Bytes)
    | PeripheralConnect(connHandle: int, addrType: int, addr: Bytes)
    | PeripheralDisconnect(connHandle: int, addrType: int, addr: Bytes)
    | ServiceResult(connHandle: int, startHandle: int, endHandle: int, uuid: Bytes)
    | CharacteristicResult(connHandle: int, defHandle: int, valueHandle: int, properties: int, uuid: Bytes)
    | Notify(connHandle: int, valueHandle: int, notifyData: Bytes)
    | Other(code: UnhandledCode)

  /**
   * One call into the radio. `conn` is the handle the client passes, which is
   * whatever its connection handle holds at that moment (possibly None).
   */
  datatype Command =
    | ScanStart(durationMs: int)                                   // gap_scan(duration)
    | ScanStop                                                     // gap_scan(None)
    | GapConnect(addrType: int, addr: Bytes)                       // gap_connect
    | DiscoverServices(connHandle: int)                            // gattc_discover_services
    | DiscoverCharacteristics(conn: Option<int>, startHandle: int, endHandle: int)
    | Write(conn: Option<int>, handle: int, data: Bytes, mode: int) // gattc_write
}

/**
 * The advertisement parser: an advertising payload is a run of AD
 * structures (Bluetooth Core Specification, Volume 3, Part C, Section 11),
 * each a length byte L, then an AD type byte and L - 1 data bytes. A
 * structure of type 0x06 or 0x07 (incomplete / complete list of 128-bit
 * service class UUIDs) carries consecutive 16-byte UUIDs.
 *
 * `Decode` states what the client's parser returns, `DecodeServices` is the
 * parser's loop, and the lemmas say what `Decode` means.
 */
module Advertising {
  import opened BleTypes

  /** The two ways the parser raises instead of returning a list. */
  datatype ParseError =
    | MissingType         // a non-zero length byte is the last byte: indexing the type byte fails
    | InvalidUuid(len: nat) // a UUID slice the UUID constructor refuses (not 2, 4 or 16 bytes)

  /** The parser either returns its list of UUIDs or raises. */
  datatype Outcome = Decoded(uuids: seq<Bytes>) | Failed(error: ParseError)

  /** `uuids` in front of whatever `rest` decodes to; a failure stays a failure. */
  function Then(first: Outcome, rest: Outcome): Outcome {
    match first
    case Failed(e) => Failed(e)
    case Decoded(us) =>
      match rest
      case Failed(e) => Failed(e)
      case Decoded(vs) => Decoded(us + vs)
  }

  /** The AD types that list 128-bit service UUIDs. */
  predicate ListsUuid128(adType: Byte) {
    adType == 0x06 || adType == 0x07
  }

  /** The buffer lengths from which a UUID can be built: 16-, 32- and 128-bit forms. */
  predicate UuidLength(n: nat) {
    n == 2 || n == 4 || n == 16
  }

  /** Python's `s[a:b]` for 0 <= a <= b: the slice is cut short at the end of `s`. */
  function PySlice(s: Bytes, a: nat, b: nat): Bytes
    requires a <= b
  {
    if a >= |s| then [] else if b <= |s| then s[a..b] else s[a..]
  }

  /** The number of whole UUIDs in a structure of length `len`. */
  function UuidCount(len: nat): nat
    requires len >= 1
  {
    (len - 1) / 16
  }

  /** The bytes of UUID `j` of the structure starting at `i`, cut short at the end of `adv`. */
  function UuidSlice(adv: Bytes, i: nat, j: nat): Bytes {
    PySlice(adv, i + 2 + 16 * j, i + 18 + 16 * j)
  }

  /** UUIDs `j` .. `count - 1` of the structure starting at `i`. */
  function RecordUuids(adv: Bytes, i: nat, count: nat, j: nat): Outcome
    decreases count - j
  {
    if j >= count then Decoded([])
    else
      var u := UuidSlice(adv, i, j);
      if !UuidLength(|u|) then Failed(InvalidUuid(|u|))
      else Then(Decoded([u]), RecordUuids(adv, i, count, j + 1))
  }

  /** What the parser returns when its cursor stands at `i`. */
  function Decode(adv: Bytes, i: nat): Outcome
    decreases |adv| - i
  {
    if i >= |adv| then Decoded([])
    else
      var len := adv[i];
      if len == 0 then Decoded([])
      else if i + 1 >= |adv| then Failed(MissingType)
      else
        var here := if ListsUuid128(adv[i + 1]) then RecordUuids(adv, i, UuidCount(len), 0) else Decoded([]);
        Then(here, Decode(adv, i + 1 + len))
  }

  /**
   * The parser loop. Its cursor moves by 1 + L with L >= 1 on every pass,
   * which is what `decreases` proves; the result is exactly `Decode(adv, 0)`.
   */
  method DecodeServices(adv: Bytes) returns (r: Outcome)
    ensures r == Decode(adv, 0)
  {
    var services: seq<Bytes> := [];
    var i: nat := 0;
    while i < |adv|
      invariant Then(Decoded(services), Decode(adv, i)) == Decode(adv, 0)
      decreases |adv| - i
    {
      var len := adv[i];
      if len == 0 {
        break;
      }
      if i + 1 >= |adv| {
        return Failed(MissingType);
      }
      var next := i + 1 + len;
      ghost var here := if ListsUuid128(adv[i + 1]) then RecordUuids(adv, i, UuidCount(len), 0) else Decoded([]);
      DecodeUnfold(adv, i);
      ThenAssoc(Decoded(services), here, Decode(adv, next));
      if ListsUuid128(adv[i + 1]) {
        var count := UuidCount(len);
        var j := 0;
        while j < count
          invariant 0 <= j <= count
          invariant Then(Then(Decoded(services), RecordUuids(adv, i, count, j)), Decode(adv, next)) == Decode(adv, 0)
        {
          var u := PySlice(adv, i + 2 + j * 16, i + 18 + j * 16);
          assert u == UuidSlice(adv, i, j);
          if !UuidLength(|u|) {
            assert RecordUuids(adv, i, count, j) == Failed(InvalidUuid(|u|));
            return Failed(InvalidUuid(|u|));
          }
          assert RecordUuids(adv, i, count, j) == Then(Decoded([u]), RecordUuids(adv, i, count, j + 1));
          ThenAssoc(Decoded(services), Decoded([u]), RecordUuids(adv, i, count, j + 1));
          services := services + [u];
          j := j + 1;
        }
        ThenNothing(Decoded(services));
      } else {
        ThenNothing(Decoded(services));
      }
      i := next;
    }
    ThenNothing(Decoded(services));
    r := Decoded(services);
  }

  lemma DecodeUnfold(adv: Bytes, i: nat)
    requires i + 1 < |adv| && adv[i] != 0
    ensures Decode(adv, i)
         == Then(if ListsUuid128(adv[i + 1]) then RecordUuids(adv, i, UuidCount(adv[i]), 0) else Decoded([]),
                 Decode(adv, i + 1 + adv[i]))
  {
  }

  lemma ThenAssoc(x: Outcome, y: Outcome, z: Outcome)
    ensures Then(x, Then(y, z)) == Then(Then(x, y), z)
  {
    if x.Decoded? && y.Decoded? && z.Decoded? {
      assert x.uuids + (y.uuids + z.uuids) == (x.uuids + y.uuids) + z.uuids;
    }
  }

  lemma ThenNothing(x: Outcome)
    ensures Then(x, Decoded([])) == x
  {
    if x.Decoded? {
      assert x.uuids + [] == x.uuids;
    }
  }

  // ---------------------------------------------------------------------
  // Well-formed payloads

  /**
   * From `i` on, `adv` is a run of complete AD structures, none of length
   * zero, that ends exactly at the end of the buffer.
   */
  predicate WellFormed(adv: Bytes, i: nat)
    decreases |adv| - i
  {
    if i >= |adv| then i == |adv|
    else adv[i] != 0 && i + 1 + adv[i] <= |adv| && WellFormed(adv, i + 1 + adv[i])
  }

  /** The bytes of UUID `j` of a structure that lies inside the buffer. */
  function UuidAt(adv: Bytes, i: nat, j: nat): Bytes
    requires i + 18 + 16 * j <= |adv|
  {
    adv[i + 2 + 16 * j .. i + 18 + 16 * j]
  }

  lemma {:induction false} RecordUuidsWhole(adv: Bytes, i: nat, count: nat, j: nat)
    requires j <= count && i + 2 + 16 * count <= |adv|
    ensures RecordUuids(adv, i, count, j)
         == Decoded(seq(count - j, k requires 0 <= k < count - j => UuidAt(adv, i, j + k)))
    decreases count - j
  {
    var want := seq(count - j, k requires 0 <= k < count - j => UuidAt(adv, i, j + k));
    if j < count {
      RecordUuidsWhole(adv, i, count, j + 1);
      var rest := seq(count - (j + 1), k requires 0 <= k < count - (j + 1) => UuidAt(adv, i, j + 1 + k));
      assert UuidSlice(adv, i, j) == UuidAt(adv, i, j);
      assert want == [UuidAt(adv, i, j)] + rest;
    }
  }

  /**
   * How one complete AD structure contributes: a 0x06 / 0x07 structure of
   * length L gives exactly (L - 1) div 16 UUIDs, UUID j being the bytes at
   * offsets [i + 2 + 16j, i + 18 + 16j), ahead of everything after it; any
   * trailing partial UUID is ignored; every other type gives nothing.
   */
  lemma RecordContribution(adv: Bytes, i: nat)
    requires i < |adv| && adv[i] != 0 && i + 1 + adv[i] <= |adv|
    ensures var len := adv[i];
      var count := UuidCount(len);
      var own := seq(count, j requires 0 <= j < count => UuidAt(adv, i, j));
      Decode(adv, i) == Then(if ListsUuid128(adv[i + 1]) then Decoded(own) else Decoded([]), Decode(adv, i + 1 + len))
      && |own| == count && (forall j :: 0 <= j < count ==> |own[j]| == 16)
  {
    var len := adv[i];
    assert i + 2 + 16 * UuidCount(len) <= |adv|;
    RecordUuidsWhole(adv, i, UuidCount(len), 0);
    var own := seq(UuidCount(len), j requires 0 <= j < UuidCount(len) => UuidAt(adv, i, j));
    assert seq(UuidCount(len) - 0, k requires 0 <= k < UuidCount(len) - 0 => UuidAt(adv, i, 0 + k)) == own;
  }

  /** A well-formed payload never makes the parser raise, and every UUID it yields is 128-bit. */
  lemma {:induction false} WellFormedDecodes(adv: Bytes, i: nat)
    requires WellFormed(adv, i)
    ensures Decode(adv, i).Decoded?
    ensures forall u :: u in Decode(adv, i).uuids ==> |u| == 16
    decreases |adv| - i
  {
    if i < |adv| {
      var next := i + 1 + adv[i];
      WellFormedDecodes(adv, next);
      RecordContribution(adv, i);
    }
  }

  // ---------------------------------------------------------------------
  // Position independence and concatenation

  lemma SliceShift(a: Bytes, b: Bytes, x: nat, y: nat)
    requires x <= y
    ensures PySlice(a + b, |a| + x, |a| + y) == PySlice(b, x, y)
  {
    var c := a + b;
    if x < |b| {
      if y <= |b| {
        assert c[|a| + x .. |a| + y] == b[x..y];
      } else {
        assert c[|a| + x ..] == b[x..];
      }
    }
  }

  lemma {:induction false} RecordShift(a: Bytes, b: Bytes, k: nat, count: nat, j: nat)
    ensures RecordUuids(a + b, |a| + k, count, j) == RecordUuids(b, k, count, j)
    decreases count - j
  {
    if j < count {
      SliceShift(a, b, k + 2 + 16 * j, k + 18 + 16 * j);
      RecordShift(a, b, k, count, j + 1);
    }
  }

  /** The parser reads a structure the same way wherever it sits in the buffer. */
  lemma {:induction false} DecodeShift(a: Bytes, b: Bytes, k: nat)
    ensures Decode(a + b, |a| + k) == Decode(b, k)
    decreases |b| - k
  {
    var c := a + b;
    if k < |b| {
      assert c[|a| + k] == b[k];
      if k + 1 < |b| {
        assert c[|a| + k + 1] == b[k + 1];
        var len := b[k];
        if len != 0 {
          RecordShift(a, b, k, UuidCount(len), 0);
          DecodeShift(a, b, k + 1 + len);
        }
      }
    }
  }

  lemma {:induction false} RecordPrefix(a: Bytes, b: Bytes, i: nat, count: nat, j: nat)
    requires i + 2 + 16 * count <= |a|
    ensures RecordUuids(a + b, i, count, j) == RecordUuids(a, i, count, j)
    decreases count - j
  {
    if j < count {
      var c := a + b;
      assert c[i + 2 + 16 * j .. i + 18 + 16 * j] == a[i + 2 + 16 * j .. i + 18 + 16 * j];
      RecordPrefix(a, b, i, count, j + 1);
    }
  }

  /**
   * UUIDs come out in record order: after a well-formed run of structures,
   * whatever follows is decoded as if it stood alone, and its UUIDs come
   * after those of the run.
   */
  lemma {:induction false} DecodeConcat(a: Bytes, b: Bytes, i: nat)
    requires WellFormed(a, i)
    ensures Decode(a + b, i) == Then(Decode(a, i), Decode(b, 0))
    decreases |a| - i
  {
    var c := a + b;
    if i >= |a| {
      DecodeShift(a, b, 0);
    } else {
      var len := a[i];
      var next := i + 1 + len;
      assert c[i] == a[i] && c[i + 1] == a[i + 1];
      RecordPrefix(a, b, i, UuidCount(len), 0);
      DecodeConcat(a, b, next);
      var here := if ListsUuid128(a[i + 1]) then RecordUuids(a, i, UuidCount(len), 0) else Decoded([]);
      ThenAssoc(here, Decode(a, next), Decode(b, 0));
    }
  }

  /**
   * A zero length byte ends the parse: after a well-formed run of
   * structures, a 0 and then anything at all decode exactly as the run alone.
   */
  lemma ZeroLengthStops(head: Bytes, tail: Bytes)
    requires WellFormed(head, 0)
    ensures Decode(head + ([0] + tail), 0) == Decode(head, 0)
  {
    DecodeConcat(head, [0] + tail, 0);
    ThenNothing(Decode(head, 0));
  }

  // ---------------------------------------------------------------------
  // Every decoded UUID is taken from the payload

  /** `n` bytes of `s` from offset `a`. */
  function Window(s: Bytes, a: nat, n: nat): Bytes
    requires a + n <= |s|
  {
    s[a..a + n]
  }

  /** `u` appears as contiguous bytes somewhere in `s`. */
  ghost predicate Occurs(u: Bytes, s: Bytes) {
    exists a: nat :: a + |u| <= |s| && Window(s, a, |u|) == u
  }

  lemma {:induction false} RecordUuidsOccur(adv: Bytes, i: nat, count: nat, j: nat)
    requires RecordUuids(adv, i, count, j).Decoded?
    ensures forall u :: u in RecordUuids(adv, i, count, j).uuids ==> Occurs(u, adv)
    decreases count - j
  {
    if j < count {
      var u := UuidSlice(adv, i, j);
      var a := i + 2 + 16 * j;
      assert a < |adv|;
      assert Window(adv, a, |u|) == u;
      RecordUuidsOccur(adv, i, count, j + 1);
    }
  }

  /**
   * Every UUID the parser yields is a run of bytes of the payload; so a
   * payload in which the 16 bytes of a UUID never appear cannot advertise it.
   */
  lemma {:induction false} DecodedUuidsOccur(adv: Bytes, i: nat)
    requires Decode(adv, i).Decoded?
    ensures forall u :: u in Decode(adv, i).uuids ==> Occurs(u, adv)
    decreases |adv| - i
  {
    if i < |adv| && adv[i] != 0 && i + 1 < |adv| {
      var len := adv[i];
      if ListsUuid128(adv[i + 1]) {
        RecordUuidsOccur(adv, i, UuidCount(len), 0);
      }
      DecodedUuidsOccur(adv, i + 1 + len);
    }
  }

  // ---------------------------------------------------------------------
  // Building a 128-bit UUID list structure, and parsing it back

  function Flatten(us: seq<Bytes>): Bytes {
    if us == [] then [] else us[0] + Flatten(us[1..])
  }

  lemma {:induction false} FlattenAt(us: seq<Bytes>, j: nat)
    requires forall u :: u in us ==> |u| == 16
    requires j < |us|
    ensures |Flatten(us)| == 16 * |us|
    ensures Flatten(us)[16 * j .. 16 * j + 16] == us[j]
  {
    FlattenLength(us);
    if j > 0 {
      FlattenAt(us[1..], j - 1);
      assert Flatten(us)[16 * j .. 16 * j + 16] == Flatten(us[1..])[16 * (j - 1) .. 16 * (j - 1) + 16];
    } else {
      assert Flatten(us)[..16] == us[0];
    }
  }

  lemma {:induction false} FlattenLength(us: seq<Bytes>)
    requires forall u :: u in us ==> |u| == 16
    ensures |Flatten(us)| == 16 * |us|
  {
    if us != [] {
      FlattenLength(us[1..]);
    }
  }

  /** One AD structure of type `adType` listing the 128-bit UUIDs `us` (at most 15 fit). */
  function ServiceList(adType: Byte, us: seq<Bytes>): Bytes
    requires ListsUuid128(adType) && |us| <= 15
  {
    [(1 + 16 * |us|) as Byte, adType] + Flatten(us)
  }

  /** Parsing a UUID-list structure gives back exactly the UUIDs it lists, in order. */
  lemma ServiceListRoundTrip(adType: Byte, us: seq<Bytes>)
    requires ListsUuid128(adType) && |us| <= 15
    requires forall u :: u in us ==> |u| == 16
    ensures WellFormed(ServiceList(adType, us), 0)
    ensures Decode(ServiceList(adType, us), 0) == Decoded(us)
  {
    var enc := ServiceList(adType, us);
    FlattenLength(us);
    assert enc[0] == 1 + 16 * |us|;
    assert UuidCount(enc[0]) == |us|;
    assert WellFormed(enc, 2 + 16 * |us|);
    RecordContribution(enc, 0);
    var own := seq(|us|, j requires 0 <= j < |us| => UuidAt(enc, 0, j));
    forall j | 0 <= j < |us|
      ensures own[j] == us[j]
    {
      FlattenAt(us, j);
      assert UuidAt(enc, 0, j) == Flatten(us)[16 * j .. 16 * j + 16];
    }
    assert own == us;
    ThenNothing(Decoded(us));
  }

  /**
   * A payload whose structures are well formed up to a UUID-list structure
   * naming `us` yields the UUIDs of the structures before it, then `us`,
   * then those after it; so each UUID of `us` is found unless the bytes
   * after the list make the parser raise.
   */
  lemma AdvertisedUuidsFound(head: Bytes, adType: Byte, us: seq<Bytes>, tail: Bytes)
    requires WellFormed(head, 0)
    requires ListsUuid128(adType) && |us| <= 15
    requires forall u :: u in us ==> |u| == 16
    ensures Decode(head + ServiceList(adType, us) + tail, 0)
         == Then(Decode(head, 0), Then(Decoded(us), Decode(tail, 0)))
    ensures Decode(tail, 0).Decoded? ==>
      Decode(head + ServiceList(adType, us) + tail, 0).Decoded? &&
      forall u :: u in us ==> u in Decode(head + ServiceList(adType, us) + tail, 0).uuids
  {
    var enc := ServiceList(adType, us);
    ServiceListRoundTrip(adType, us);
    assert head + enc + tail == head + (enc + tail);
    DecodeConcat(head, enc + tail, 0);
    DecodeConcat(enc, tail, 0);
    WellFormedDecodes(head, 0);
  }

  // ---------------------------------------------------------------------
  // A truncated last structure: when the parser raises and when it does not

  /** A non-zero length byte at the very end: the type byte is read past the end. */
  lemma LengthAtEndRaises(head: Bytes, len: Byte)
    requires WellFormed(head, 0) && len != 0
    ensures Decode(head + [len], 0) == Failed(MissingType)
  {
    DecodeConcat(head, [len], 0);
    WellFormedDecodes(head, 0);
  }

  lemma {:induction false} RecordUuidsFailAt(adv: Bytes, i: nat, count: nat, j: nat, bad: nat)
    requires j <= bad < count
    requires forall k :: j <= k < bad ==> UuidLength(|UuidSlice(adv, i, k)|)
    requires !UuidLength(|UuidSlice(adv, i, bad)|)
    ensures RecordUuids(adv, i, count, j) == Failed(InvalidUuid(|UuidSlice(adv, i, bad)|))
    decreases bad - j
  {
    if j < bad {
      RecordUuidsFailAt(adv, i, count, j + 1, bad);
    }
  }

  lemma {:induction false} RecordUuidsAllUsable(adv: Bytes, i: nat, count: nat, j: nat)
    requires j <= count
    requires forall k :: j <= k < count ==> UuidLength(|UuidSlice(adv, i, k)|)
    ensures RecordUuids(adv, i, count, j)
         == Decoded(seq(count - j, k requires 0 <= k < count - j => UuidSlice(adv, i, j + k)))
    decreases count - j
  {
    var want := seq(count - j, k requires 0 <= k < count - j => UuidSlice(adv, i, j + k));
    if j < count {
      RecordUuidsAllUsable(adv, i, count, j + 1);
      var rest := seq(count - (j + 1), k requires 0 <= k < count - (j + 1) => UuidSlice(adv, i, j + 1 + k));
      assert want == [UuidSlice(adv, i, j)] + rest;
    }
  }

  /**
   * A 0x06 / 0x07 structure after a well-formed run whose UUID slices
   * 0 .. j - 1 can be built into UUIDs but whose slice j, cut short by the
   * end of the buffer, is neither 2, 4 nor 16 bytes long: the parser raises
   * on slice j, whatever the run before it held.
   */
  lemma ShortUuidRaises(head: Bytes, rec: Bytes, j: nat)
    requires WellFormed(head, 0)
    requires |rec| >= 2 && rec[0] != 0 && ListsUuid128(rec[1])
    requires j < UuidCount(rec[0])
    requires forall k :: 0 <= k < j ==> UuidLength(|UuidSlice(rec, 0, k)|)
    requires !UuidLength(|UuidSlice(rec, 0, j)|)
    ensures Decode(head + rec, 0) == Failed(InvalidUuid(|UuidSlice(rec, 0, j)|))
  {
    DecodeConcat(head, rec, 0);
    WellFormedDecodes(head, 0);
    RecordUuidsFailAt(rec, 0, UuidCount(rec[0]), 0, j);
  }

  /**
   * The complement: a last structure that claims more bytes than remain, but
   * whose UUID slices (if it lists 128-bit UUIDs) are each 2, 4 or 16 bytes
   * long, raises nothing and ends the parse. It contributes those slices as
   * UUIDs, in order, after the UUIDs of the run before it; any other type
   * contributes nothing.
   */
  lemma OverrunWithoutShortUuidEnds(head: Bytes, rec: Bytes)
    requires WellFormed(head, 0)
    requires |rec| >= 2 && rec[0] != 0 && |rec| <= rec[0]
    requires ListsUuid128(rec[1]) ==>
      forall k :: 0 <= k < UuidCount(rec[0]) ==> UuidLength(|UuidSlice(rec, 0, k)|)
    ensures var count := UuidCount(rec[0]);
      var own := if ListsUuid128(rec[1]) then seq(count, k requires 0 <= k < count => UuidSlice(rec, 0, k)) else [];
      Decode(head + rec, 0) == Then(Decode(head, 0), Decoded(own))
  {
    var count := UuidCount(rec[0]);
    DecodeConcat(head, rec, 0);
    WellFormedDecodes(head, 0);
    assert Decode(rec, rec[0] as int + 1) == Decoded([]);
    if ListsUuid128(rec[1]) {
      RecordUuidsAllUsable(rec, 0, count, 0);
      var own := seq(count, k requires 0 <= k < count => UuidSlice(rec, 0, k));
      assert seq(count - 0, k requires 0 <= k < count - 0 => UuidSlice(rec, 0, 0 + k)) == own;
      ThenNothing(Decoded(own));
    }
  }
}

/** Building and parsing wire values and keys: common/src/utils.cxx and calculateKeyHint of
    common/include/utils.hxx. The messages are the fields of proto/cache.proto these functions touch. */
module Codec {
  import opened Common
  import Hashes

  type byte = Hashes.byte
  type Blob = seq<byte>

  const UINT64: nat := 0x1_0000_0000_0000_0000

  type int32 = x: int | -0x8000_0000 <= x < 0x8000_0000
  type int64 = x: int | -0x8000_0000_0000_0000 <= x < 0x8000_0000_0000_0000

  /** Conversion to uint64_t. */
  function Uint64(x: int32): nat { x % UINT64 }

  // ---- the compression library ----

  /** decompress(c, n) fills a buffer of n bytes or fails; None is the null pointer. */
  datatype Library = Library(compress: Blob -> Option<Blob>, decompress: (Blob, nat) -> Option<Blob>)

  ghost predicate Sized(z: Library) {
    && (forall x :: z.compress(x).Some? ==> |z.compress(x).value| < UINT32)
    && (forall c, n :: z.decompress(c, n).Some? ==> |z.decompress(c, n).value| == n)
  }

  type Compressor = z: Library | Sized(z) witness Library(x => None, (c, n) => None)

  /** Decompressing what compress produced gives the original back. */
  ghost predicate Lossless(z: Compressor) {
    forall x :: z.compress(x).Some? ==> z.decompress(z.compress(x).value, |x|) == Some(x)
  }

  // ---- values ----

  /** A client value; a double is kept as its 64-bit pattern. */
  datatype Value = Bytes(data: Blob) | Int(number: int64) | Double(bits: bv64)

  predicate IsNaN(bits: bv64) {
    (bits & 0x7FF0_0000_0000_0000) == 0x7FF0_0000_0000_0000 && (bits & 0x000F_FFFF_FFFF_FFFF) != 0
  }

  predicate IsZero(bits: bv64) { bits == 0 || bits == 0x8000_0000_0000_0000 }

  /** Exponent all ones and a fraction other than zero: above the infinities, the sign aside. */
  lemma NaNsAreAboveInfinity(bits: bv64)
    ensures IsNaN(bits) <==> (bits << 1) > 0xFFE0_0000_0000_0000
    ensures IsZero(bits) <==> bits << 1 == 0
  {}

  /** operator== on client values. */
  predicate Same(a: Value, b: Value) {
    match (a, b)
    case (Bytes(x), Bytes(y)) => x == y
    case (Int(x), Int(y)) => x == y
    case (Double(x), Double(y)) => !IsNaN(x) && !IsNaN(y) && (x == y || (IsZero(x) && IsZero(y)))
    case _ => false
  }

  /** Equality as usual, but for doubles: no NaN equals anything, and the two zeros are equal. */
  lemma SameIsEquality(a: Value, b: Value)
    ensures !a.Double? || !b.Double? ==> (Same(a, b) <==> a == b)
    ensures a.Double? && b.Double? ==>
              (Same(a, b) <==> !IsNaN(a.bits) && !IsNaN(b.bits) && (a.bits == b.bits || (a.bits | b.bits) << 1 == 0))
  {
    if a.Double? && b.Double? {
      NaNsAreAboveInfinity(a.bits);
      NaNsAreAboveInfinity(b.bits);
      EitherZero(a.bits, b.bits);
    }
  }

  lemma EitherZero(a: bv64, b: bv64)
    ensures (a | b) << 1 == 0 <==> a << 1 == 0 && b << 1 == 0
  {}

  datatype WireType = AUTO | BYTES | INT | DOUBLE | UNRECOGNIZED(tag: int)

  /** The payload oneof. A Cord is a list of chunks of any sizes. */
  datatype Payload = Unset | BytesArm(cord: seq<Blob>) | IntArm(number: int64) | DoubleArm(bits: bv64)

  datatype CompressedInfo = CompressedInfo(enabled: bool, rawSize: nat)

  datatype ValueMessage = ValueMessage(valueType: WireType, payload: Payload, size: nat, info: Option<CompressedInfo>)

  /** Reading an arm of the oneof that is not the one set gives its default. */
  function CordOf(p: Payload): seq<Blob> { if p.BytesArm? then p.cord else [] }
  function IntOf(p: Payload): int64 { if p.IntArm? then p.number else 0 }
  function DoubleOf(p: Payload): bv64 { if p.DoubleArm? then p.bits else 0 }

  /** A Cord over one external buffer. */
  function Whole(data: Blob): seq<Blob> { if data == [] then [] else [data] }

  /** The compressed form that is sent, if the size asks for one and the library delivers. */
  function Packed(z: Compressor, data: Blob, threshold: int32): Option<Blob> {
    if |data| <= Uint64(threshold) then None
    else match z.compress(data[..Uint32(|data|)])
      case Some(c) => if |c| > 0 then Some(c) else None
      case None => None
  }

  function BuiltValue(z: Compressor, v: Value, threshold: int32): ValueMessage {
    match v
    case Int(n) => ValueMessage(INT, IntArm(n), 0, None)
    case Double(b) => ValueMessage(DOUBLE, DoubleArm(b), 0, None)
    case Bytes(data) =>
      match Packed(z, data, threshold)
      case Some(c) => ValueMessage(BYTES, BytesArm(Whole(c)), |c|, Some(CompressedInfo(true, Uint32(|data|))))
      case None => ValueMessage(BYTES, BytesArm(Whole(data)), Uint32(|data|), None)
  }

  method BuildValueProto(z: Compressor, value: Value, defaultCompressionThreshold: int32) returns (m: ValueMessage)
    ensures m == BuiltValue(z, value, defaultCompressionThreshold)
  {
    m := ValueMessage(AUTO, Unset, 0, None);
    match value {
      case Bytes(data) =>
        m := m.(valueType := BYTES);
        if |data| > Uint64(defaultCompressionThreshold) {
          var compressed := z.compress(data[..Uint32(|data|)]);
          if compressed.Some? && |compressed.value| > 0 {
            m := m.(info := Some(CompressedInfo(true, 0)));
            m := m.(info := Some(m.info.value.(rawSize := Uint32(|data|))));
            m := m.(size := |compressed.value|);
            m := m.(payload := BytesArm(Whole(compressed.value)));
          } else {
            m := m.(size := Uint32(|data|));
            m := m.(payload := BytesArm(Whole(data)));
          }
        } else {
          m := m.(size := Uint32(|data|));
          m := m.(payload := BytesArm(Whole(data)));
        }
      case Int(n) =>
        m := m.(valueType := INT);
        m := m.(payload := IntArm(n));
      case Double(b) =>
        m := m.(valueType := DOUBLE);
        m := m.(payload := DoubleArm(b));
    }
  }

  /** The declared type, or for AUTO the one the oneof suggests; AUTO when it suggests none. */
  function EffectiveType(m: ValueMessage): WireType {
    if m.valueType != AUTO then m.valueType
    else match m.payload
      case IntArm(_) => INT
      case DoubleArm(_) => DOUBLE
      case BytesArm(_) => BYTES
      case Unset => AUTO
  }

  /** The bytes a BYTES message stands for. */
  function Unpacked(z: Compressor, m: ValueMessage): Option<Blob> {
    var data := Concat(CordOf(m.payload));
    if m.info.Some? && m.info.value.enabled
    then z.decompress(data[..Uint32(|data|)], m.info.value.rawSize)
    else Some(data)
  }

  function ParsedValue(z: Compressor, m: ValueMessage): Option<Value> {
    match EffectiveType(m)
    case BYTES => (match Unpacked(z, m) case Some(data) => Some(Bytes(data)) case None => None)
    case INT => Some(Int(IntOf(m.payload)))
    case DOUBLE => Some(Double(DoubleOf(m.payload)))
    case _ => None
  }

  /** decompress(source, size, expected) into a new buffer; size is a uint32_t. */
  method Inflate(z: Compressor, source: Blob, expected: nat) returns (dest: array?<byte>)
    ensures dest == null <==> z.decompress(source[..Uint32(|source|)], expected) == None
    ensures dest != null ==> dest[..] == z.decompress(source[..Uint32(|source|)], expected).value
  {
    var raw := z.decompress(source[..Uint32(|source|)], expected);
    if raw == None {
      return null;
    }
    var buffer := new byte[|raw.value|](i requires 0 <= i < |raw.value| => raw.value[i]);
    assert buffer[..] == raw.value;
    dest := buffer;
  }

  /** The copying loop: chunk after chunk at the write pointer. */
  method CopyChunks(cord: seq<Blob>, buff: array<byte>) returns (realSize: nat)
    requires buff.Length == |Concat(cord)|
    modifies buff
    ensures realSize == buff.Length && buff[..] == Concat(cord)
  {
    var writePtr := 0;
    realSize := 0;
    for i := 0 to |cord|
      invariant writePtr == realSize == |Concat(cord[..i])| <= buff.Length
      invariant buff[..writePtr] == Concat(cord[..i])
    {
      ConcatStep(cord, i);
      ConcatTake(cord, i + 1);
      var chunk := cord[i];
      CopyAt(buff, writePtr, chunk);
      writePtr := writePtr + |chunk|;
      realSize := realSize + |chunk|;
    }
    assert cord[..|cord|] == cord;
  }

  /** memcpy */
  method CopyAt(buff: array<byte>, at: nat, chunk: Blob)
    requires at + |chunk| <= buff.Length
    modifies buff
    ensures buff[..at] == old(buff[..at])
    ensures buff[..at + |chunk|] == old(buff[..at]) + chunk
  {
    forall k | 0 <= k < |chunk| {
      buff[at + k] := chunk[k];
    }
    assert buff[..at + |chunk|] == buff[..at] + buff[at..at + |chunk|];
    assert buff[at..at + |chunk|] == chunk;
  }

  /** The BYTES arm. `stop` is its early null return; otherwise it leaves a buffer and its success flag. */
  method ReadBytes(z: Compressor, m: ValueMessage) returns (stop: bool, success: bool, buff: array?<byte>)
    ensures stop <==> Unpacked(z, m) == None
    ensures !stop ==> success && buff != null && Unpacked(z, m) == Some(buff[..])
  {
    stop, success, buff := false, false, null;
    var compressed, rawSize := false, 0;
    if m.info.Some? {
      compressed, rawSize := m.info.value.enabled, m.info.value.rawSize;
    }
    var cord := CordOf(m.payload);
    var size := |Concat(cord)|;
    var flat := |cord| == 1 && |cord[0]| == size;
    assert |cord| == 1 ==> cord[..1] == cord && Concat(cord[..1]) == cord[0];
    if compressed && flat {
      var raw := Inflate(z, cord[0], rawSize);
      if raw != null {
        buff, success := raw, true;
      } else {
        stop := true;
      }
    } else {
      var copy := new byte[size];
      var realSize := 0;
      if flat {
        CopyAt(copy, 0, cord[0]);
        assert copy[..] == copy[..0 + |cord[0]|];
        realSize := size;
      } else {
        realSize := CopyChunks(cord, copy);
      }
      buff := copy;
      if realSize == size {
        if compressed {
          var raw := Inflate(z, copy[..], rawSize);
          if raw != null {
            buff := raw;
          } else {
            stop := true;
          }
        }
        success := !stop && buff != null;
      } else {
        stop := true;
      }
    }
  }

  /** Whatever the message and however its Cord is cut up: the value is a function of the joined bytes, and
      a message of type BYTES yields bytes or nothing, so that control never falls into the INT arm. */
  method ValueRequestToValue(z: Compressor, request: ValueMessage) returns (r: Option<Value>)
    ensures r == ParsedValue(z, request)
    ensures EffectiveType(request) == BYTES && r.Some? ==> r.value.Bytes?
  {
    var kind := request.valueType;
    var stop := false;
    if kind == AUTO {
      match request.payload {
        case IntArm(_) => kind := INT;
        case DoubleArm(_) => kind := DOUBLE;
        case BytesArm(_) => kind := BYTES;
        case Unset => stop := true;
      }
    }
    r := None;
    if !stop && kind == BYTES {
      var success, buff;
      stop, success, buff := ReadBytes(z, request);
      if !stop {
        if success && buff != null {
          r := Some(Bytes(buff[..]));
          stop := true;
        } else {
          kind := INT;                     // no break: control enters the next arm
        }
      }
    }
    if !stop && kind == INT {
      r := Some(Int(IntOf(request.payload)));
    } else if !stop && kind == DOUBLE {
      r := Some(Double(DoubleOf(request.payload)));
    }
  }

  /** The same message with its Cord cut up differently. */
  predicate Recut(m: ValueMessage, m': ValueMessage) {
    && m'.valueType == m.valueType && m'.size == m.size && m'.info == m.info
    && (if m.payload.BytesArm? then m'.payload.BytesArm? && Concat(m'.payload.cord) == Concat(m.payload.cord)
        else m'.payload == m.payload)
  }

  /** Built with 2^32 bytes or more and compressed: the lengths on the wire are cut to 32 bits. */
  predicate Truncates(z: Compressor, v: Value, threshold: int32) {
    v.Bytes? && |v.data| >= UINT32 && Packed(z, v.data, threshold).Some?
  }

  lemma WholeJoins(data: Blob)
    ensures Concat(Whole(data)) == data
  {
    if data != [] {
      assert Whole(data)[1..] == [];
    }
  }

  /** The bytes that a built BYTES message stands for, whatever the threshold, the success of the compression
      and the cut of the Cord. */
  lemma BytesRoundTrip(z: Compressor, data: Blob, threshold: int32, m': ValueMessage)
    requires Lossless(z) && Recut(BuiltValue(z, Bytes(data), threshold), m')
    ensures Unpacked(z, m') == Some(if Truncates(z, Bytes(data), threshold) then data[..Uint32(|data|)] else data)
  {
    var packed := Packed(z, data, threshold);
    var sent := if packed.Some? then packed.value else data;
    WholeJoins(sent);
    assert Concat(m'.payload.cord) == sent;
    if packed.Some? {
      assert |sent| < UINT32;
      assert sent[..Uint32(|sent|)] == sent;
      assert data[..Uint32(|data|)] == data || |data| >= UINT32;
    }
  }

  /** What goes onto the wire: a value is compressed exactly when it is longer than the threshold, read as an
      unsigned number, and the library delivers something; the size field is that of the bytes sent. */
  lemma BuiltValueFields(z: Compressor, v: Value, threshold: int32)
    ensures var m := BuiltValue(z, v, threshold);
            && (v.Int? ==> m.valueType == INT && m.payload == IntArm(v.number) && m.info == None)
            && (v.Double? ==> m.valueType == DOUBLE && m.payload == DoubleArm(v.bits) && m.info == None)
            && (v.Bytes? ==>
                  var packed := z.compress(v.data[..Uint32(|v.data|)]);
                  && m.valueType == BYTES && m.payload.BytesArm? && m.size == Uint32(|Concat(m.payload.cord)|)
                  && (m.info.Some? <==>
                        && |v.data| > (if threshold >= 0 then threshold else threshold + UINT64)
                        && packed.Some? && packed.value != [])
                  && (m.info.Some? ==>
                        && m.info.value == CompressedInfo(true, Uint32(|v.data|))
                        && Concat(m.payload.cord) == packed.value)
                  && (m.info.None? ==> Concat(m.payload.cord) == v.data))
  {
    if v.Bytes? {
      WholeJoins(v.data);
      if Packed(z, v.data, threshold).Some? {
        WholeJoins(Packed(z, v.data, threshold).value);
      }
    }
  }

  /** The reader gives up on a message exactly when it can infer no type, when it does not know the type, and
      when compressed bytes do not decompress; reading a number from another arm gives zero. */
  lemma ValueRefused(z: Compressor, m: ValueMessage)
    ensures ParsedValue(z, m) == None <==>
              || m.valueType.UNRECOGNIZED?
              || (m.valueType == AUTO && m.payload == Unset)
              || ((m.valueType == BYTES || (m.valueType == AUTO && m.payload.BytesArm?)) && Unpacked(z, m) == None)
    ensures m.valueType == INT && !m.payload.IntArm? ==> ParsedValue(z, m) == Some(Int(0))
    ensures m.valueType == DOUBLE && !m.payload.DoubleArm? ==> ParsedValue(z, m) == Some(Double(0))
  {
    hide Unpacked;
  }

  /** Bytes are decompressed, to the announced size, exactly when compression is marked as enabled; otherwise
      they are taken as they are. A message of type BYTES with another arm holds none. */
  lemma BytesRead(z: Compressor, m: ValueMessage)
    requires m.valueType == BYTES
    ensures var data := if m.payload.BytesArm? then Concat(m.payload.cord) else [];
            && (m.info == None || !m.info.value.enabled ==> ParsedValue(z, m) == Some(Bytes(data)))
            && (m.info.Some? && m.info.value.enabled && |data| < UINT32 ==>
                  var raw := z.decompress(data, m.info.value.rawSize);
                  ParsedValue(z, m) == if raw.Some? then Some(Bytes(raw.value)) else None)
  {
    var data := Concat(CordOf(m.payload));
    assert |data| < UINT32 ==> data[..Uint32(|data|)] == data;
  }

  /** Parsing a built value gives the value back, bit for bit, exactly when it was not cut to 32 bits; then a
      prefix of its bytes comes back. In particular every value of fewer than 2^32 bytes survives. */
  lemma ValueRoundTrip(z: Compressor, v: Value, threshold: int32, m': ValueMessage)
    requires Lossless(z) && Recut(BuiltValue(z, v, threshold), m')
    ensures ParsedValue(z, m') == Some(v) <==> !Truncates(z, v, threshold)
    ensures Truncates(z, v, threshold) ==> ParsedValue(z, m') == Some(Bytes(v.data[..Uint32(|v.data|)]))
  {
    if v.Bytes? {
      BytesRoundTrip(z, v.data, threshold, m');
    }
  }

  /** With the client's own equality the one further exception is a NaN. */
  lemma ParsedEqualsBuilt(z: Compressor, v: Value, threshold: int32, m': ValueMessage)
    requires Lossless(z) && Recut(BuiltValue(z, v, threshold), m')
    ensures ParsedValue(z, m').Some?
    ensures Same(ParsedValue(z, m').value, v) <==> !Truncates(z, v, threshold) && (v.Double? ==> !IsNaN(v.bits))
  {
    ValueRoundTrip(z, v, threshold, m');
  }

  /** A server that leaves the type out of a built value changes nothing for the reader. */
  lemma OmittedTypeIsInferred(z: Compressor, v: Value, threshold: int32, m': ValueMessage)
    requires Recut(BuiltValue(z, v, threshold), m')
    ensures ParsedValue(z, m'.(valueType := AUTO)) == ParsedValue(z, m')
  {
    assert EffectiveType(m'.(valueType := AUTO)) == EffectiveType(m');
    assert Unpacked(z, m'.(valueType := AUTO)) == Unpacked(z, m');
  }

  /** Different values are never built into the same message, whatever the two thresholds. */
  lemma BuiltValuesDiffer(z: Compressor, v: Value, t: int32, w: Value, u: int32)
    requires Lossless(z) && !Truncates(z, v, t) && !Truncates(z, w, u) && v != w
    ensures !Recut(BuiltValue(z, v, t), BuiltValue(z, w, u))
  {
    if Recut(BuiltValue(z, v, t), BuiltValue(z, w, u)) {
      ValueRoundTrip(z, v, t, BuiltValue(z, w, u));
      ValueRoundTrip(z, w, u, BuiltValue(z, w, u));
      assert false;
    }
  }

  // ---- keys ----

  datatype Hint = Hint(weak: bv32, strong: bv32)

  datatype HintMessage = HintMessage(weak: Option<bv32>, strong: Option<bv32>)

  datatype KeyPayload = KeyPayload(data: Blob, size: nat)

  datatype KeyMessage = KeyMessage(payload: Option<KeyPayload>, info: Option<CompressedInfo>, hint: Option<HintMessage>,
                                   clientId: Option<int32>)

  const SENTINEL: bv32 := 0xFFFF_FFFF

  /** An empty key has no hash. */
  function CalculateKeyHint(key: Blob, weekHash: Blob -> bv32): Option<Hint> {
    if |key| > 0 then Some(Hint(weekHash(key), Hashes.HashOf(key))) else None
  }

  /** Is the key sent compressed? There is no way back when that fails. */
  predicate Compresses(key: Blob, threshold: int32) { |key| > Uint32(threshold) }

  function BuiltKey(z: Compressor, key: Blob, hint: Option<Hint>, clientId: int32, threshold: int32,
                    weekHash: Blob -> bv32): KeyMessage
    requires |key| < UINT32
    requires Compresses(key, threshold) ==> z.compress(key).Some?
  {
    var sent := if Compresses(key, threshold) then z.compress(key).value else key;
    var hash := if hint.Some? then hint else CalculateKeyHint(key, weekHash);
    KeyMessage(Some(KeyPayload(sent, |sent|)),
               if Compresses(key, threshold) then Some(CompressedInfo(true, |key|)) else None,
               if hash.Some? then Some(HintMessage(Some(hash.value.weak), Some(hash.value.strong))) else None,
               Some(clientId))
  }

  method BuildKeyProto(z: Compressor, key: Blob, hint: Option<Hint>, clientId: int32,
                       defaultCompressionThreshold: int32,
                       weekHash: Blob -> bv32) returns (m: KeyMessage)
    requires |key| < UINT32
    requires Compresses(key, defaultCompressionThreshold) ==> z.compress(key).Some?
    ensures m == BuiltKey(z, key, hint, clientId, defaultCompressionThreshold, weekHash)
  {
    m := KeyMessage(Some(KeyPayload([], 0)), None, None, None);
    if |key| > Uint32(defaultCompressionThreshold) {
      m := m.(info := Some(CompressedInfo(true, 0)));
      var compressed := z.compress(key).value;
      m := m.(info := Some(m.info.value.(rawSize := |key|)));
      m := m.(payload := Some(m.payload.value.(data := compressed)));
      m := m.(payload := Some(m.payload.value.(size := |compressed|)));
    } else {
      m := m.(payload := Some(m.payload.value.(size := |key|)));
      m := m.(payload := Some(m.payload.value.(data := key)));
    }
    var effectiveHint := if hint == None then CalculateKeyHint(key, weekHash) else hint;
    if effectiveHint.Some? {
      m := m.(hint := Some(HintMessage(None, None)));
      m := m.(hint := Some(m.hint.value.(weak := Some(effectiveHint.value.weak))));
      m := m.(hint := Some(m.hint.value.(strong := Some(effectiveHint.value.strong))));
    }
    m := m.(clientId := Some(clientId));
  }

  function ParsedKey(z: Compressor, m: KeyMessage): Option<Blob> {
    if m.payload == None || m.payload.value.size != |m.payload.value.data| then None
    else if m.info.Some? then z.decompress(m.payload.value.data, m.info.value.rawSize)
    else Some(m.payload.value.data)
  }

  function OrSentinel(hash: Option<bv32>): bv32 { if hash.Some? then hash.value else SENTINEL }

  function ParsedHint(m: KeyMessage): Hint {
    if m.hint == None then Hint(SENTINEL, SENTINEL)
    else Hint(OrSentinel(m.hint.value.weak), OrSentinel(m.hint.value.strong))
  }

  /** The caller's hint, filled in place. */
  class KeyHint {
    var weakHash: bv32
    var strongHash: bv32

    constructor ()
      ensures weakHash == 0 && strongHash == 0
    {
      weakHash, strongHash := 0, 0;
    }
  }

  /** The hint is written only when a key is returned. */
  method KeyRequestToKey(z: Compressor, request: KeyMessage, hint: KeyHint?) returns (key: Option<Blob>)
    modifies if hint == null then {} else {hint}
    ensures key == ParsedKey(z, request)
    ensures hint != null && key.Some? ==> Hint(hint.weakHash, hint.strongHash) == ParsedHint(request)
    ensures hint != null && key == None ==>
              hint.weakHash == old(hint.weakHash) && hint.strongHash == old(hint.strongHash)
  {
    if request.payload == None {
      return None;
    }
    var data, payloadSize := request.payload.value.data, request.payload.value.size;
    if payloadSize != |data| {
      return None;
    }
    var strong, weak := SENTINEL, SENTINEL;
    if request.hint.Some? {
      if request.hint.value.strong.Some? { strong := request.hint.value.strong.value; }
      if request.hint.value.weak.Some? { weak := request.hint.value.weak.value; }
    }
    if request.info.Some? {
      var size := request.info.value.rawSize;
      key := z.decompress(data, size);
    } else {
      key := Some(data);
    }
    if key.Some? && hint != null {
      hint.strongHash := strong;
      hint.weakHash := weak;
    }
  }

  /** What goes onto the wire: a key is compressed exactly when it is longer than the threshold, read as an
      unsigned number; the size field is that of the bytes sent. */
  lemma BuiltKeyFields(z: Compressor, key: Blob, hint: Option<Hint>, clientId: int32, threshold: int32,
                       weekHash: Blob -> bv32)
    requires |key| < UINT32 && (Compresses(key, threshold) ==> z.compress(key).Some?)
    ensures Compresses(key, threshold) <==> |key| > (if threshold >= 0 then threshold else threshold + UINT32)
    ensures var m := BuiltKey(z, key, hint, clientId, threshold, weekHash);
            && m.clientId == Some(clientId) && m.payload.Some? && m.payload.value.size == |m.payload.value.data|
            && (m.info.Some? <==> Compresses(key, threshold))
            && (m.info.Some? ==>
                  m.info.value == CompressedInfo(true, |key|) && Some(m.payload.value.data) == z.compress(key))
            && (m.info.None? ==> m.payload.value.data == key)
  {
    hide Hashes.HashOf;
  }

  /** A key is refused exactly when it has no payload, when its size field is not the number of its bytes, and
      when compressed bytes do not decompress; whether compression is marked as enabled does not matter. A
      missing hash is read as the sentinel. */
  lemma KeyRefused(z: Compressor, m: KeyMessage)
    ensures ParsedKey(z, m) == None <==>
              || m.payload.None?
              || m.payload.value.size != |m.payload.value.data|
              || (m.info.Some? && z.decompress(m.payload.value.data, m.info.value.rawSize).None?)
    ensures (m.hint.Some? && m.hint.value.weak.Some? ==> ParsedHint(m).weak == m.hint.value.weak.value)
         && (m.hint.Some? && m.hint.value.strong.Some? ==> ParsedHint(m).strong == m.hint.value.strong.value)
    ensures m.hint.None? || m.hint.value.weak.None? ==> ParsedHint(m).weak == 0xFFFF_FFFF
    ensures m.hint.None? || m.hint.value.strong.None? ==> ParsedHint(m).strong == 0xFFFF_FFFF
  {}

  /** Any key comes back, with the hint it was given, else its own hashes, else (empty) the sentinels. */
  lemma KeyRoundTrip(z: Compressor, key: Blob, hint: Option<Hint>, clientId: int32, threshold: int32,
                     weekHash: Blob -> bv32)
    requires Lossless(z) && |key| < UINT32 && (Compresses(key, threshold) ==> z.compress(key).Some?)
    ensures var m := BuiltKey(z, key, hint, clientId, threshold, weekHash);
            && ParsedKey(z, m) == Some(key)
            && ParsedHint(m) == match hint
               case Some(given) => given
               case None => if key == [] then Hint(SENTINEL, SENTINEL) else Hint(weekHash(key), Hashes.HashOf(key))
  {
    hide Hashes.HashOf;
    assert Compresses(key, threshold) ==> z.decompress(z.compress(key).value, |key|) == Some(key);
  }

  /** Different keys are never built into messages with the same content, whatever else differs. */
  lemma BuiltKeysDiffer(z: Compressor, k: Blob, t: int32, l: Blob, u: int32, hint: Option<Hint>, clientId: int32,
                        weekHash: Blob -> bv32)
    requires Lossless(z) && |k| < UINT32 && |l| < UINT32 && k != l
    requires Compresses(k, t) ==> z.compress(k).Some?
    requires Compresses(l, u) ==> z.compress(l).Some?
    ensures var m, n := BuiltKey(z, k, hint, clientId, t, weekHash), BuiltKey(z, l, hint, clientId, u, weekHash);
            m.payload != n.payload || m.info != n.info
  {
    hide Hashes.HashOf;
    KeyRoundTrip(z, k, hint, clientId, t, weekHash);
    KeyRoundTrip(z, l, hint, clientId, u, weekHash);
  }
}

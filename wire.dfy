/**
 * The Protocol Buffers wire-format primitives of lib/partial_protobuf_feed.py:
 * base-128 varints, the key split into field number and wire type,
 * length-delimited slices and the rule that skips one field per wire type.
 *
 * Each primitive is specified by a function on the bytes that remain from the
 * cursor onwards (`Rest(data, index)`), and the source's cursor loops are
 * methods proved equal to those functions.
 */
module Wire {
  import opened Wrappers

  /** An element of a Python `bytes` object. */
  type Byte = b: int | 0 <= b < 256

  type Bytes = seq<Byte>

  /**
   * What a decode can raise: an IndexError when a varint runs off the end of
   * the buffer, or a UnicodeDecodeError when a string field is not UTF-8.
   */
  datatype DecodeError = TruncatedInput | MalformedString

  const VARINT: nat := 0
  const FIXED64: nat := 1
  const LENGTH_DELIMITED: nat := 2
  const FIXED32: nat := 5

  function Min(a: int, b: int): int {
    if a <= b then a else b
  }

  /** Python's `data[index:]`: empty once the index is at or past the end. */
  function Rest(data: Bytes, index: nat): (r: Bytes)
    ensures |r| == if index <= |data| then |data| - index else 0
  {
    if index <= |data| then data[index..] else []
  }

  /** Python's `data[lo:hi]` for `lo <= hi`: both bounds are clipped to the length, never an error. */
  function Slice(data: Bytes, lo: nat, hi: nat): (r: Bytes)
    requires lo <= hi
    ensures |r| == if lo < |data| then Min(hi, |data|) - lo else 0
  {
    if lo >= |data| then [] else data[lo..Min(hi, |data|)]
  }

  function Pow2(k: nat): (r: nat)
    ensures r >= 1
  {
    if k == 0 then 1 else 2 * Pow2(k - 1)
  }

  /** Moves the consumed count of a suffix read to an absolute cursor position. */
  function Offset<T>(r: Result<(T, nat), DecodeError>, index: nat): Result<(T, nat), DecodeError> {
    match r
    case Ok(x) => Ok((x.0, index + x.1))
    case Err(e) => Err(e)
  }

  // ---------------------------------------------------------------------------
  // Varints
  // ---------------------------------------------------------------------------

  /**
   * The varint at the front of `s`: its value and the number of bytes it
   * occupies. The low seven bits of each byte are a digit in base 128, least
   * significant first; a byte below 0x80 is the last one.
   */
  function Varint(s: Bytes): (r: Result<(nat, nat), DecodeError>)
    ensures r.Ok? ==> 1 <= r.value.1 <= |s|
    ensures r.Err? ==> r.error == TruncatedInput
    decreases |s|
  {
    if |s| == 0 then Err(TruncatedInput)
    else if s[0] < 128 then Ok((s[0], 1))
    else
      match Varint(s[1..])
      case Err(e) => Err(e)
      case Ok(tail) => Ok((s[0] - 128 + 128 * tail.0, tail.1 + 1))
  }

  /** The sum over k of (t[k] & 0x7F) * 2^(7k). */
  function GroupSum(t: Bytes): nat
    decreases |t|
  {
    if |t| == 0 then 0
    else GroupSum(t[..|t| - 1]) + (t[|t| - 1] % 128) * Pow2(7 * (|t| - 1))
  }

  /** The first `n` bytes of `s` are one varint: every byte but the last has its high bit set. */
  predicate VarintFrame(s: Bytes, n: nat) {
    1 <= n <= |s| && s[n - 1] < 128 && forall k | 0 <= k < n - 1 :: s[k] >= 128
  }

  /** The shortest base-128 encoding of `v`. */
  function EncodeVarint(v: nat): (r: Bytes)
    ensures |r| >= 1
    decreases v
  {
    if v < 128 then [v] else [v % 128 + 128] + EncodeVarint(v / 128)
  }

  lemma {:induction false} Pow2Add(a: nat, b: nat)
    ensures Pow2(a + b) == Pow2(a) * Pow2(b)
    decreases a
  {
    if a > 0 {
      Pow2Add(a - 1, b);
    }
  }

  lemma {:induction false} GroupSumFront(t: Bytes)
    requires |t| >= 1
    ensures GroupSum(t) == t[0] % 128 + 128 * GroupSum(t[1..])
    decreases |t|
  {
    if |t| > 1 {
      var n := |t|;
      var init, tail := t[..n - 1], t[1..];
      GroupSumFront(init);
      assert init[1..] == tail[..n - 2];
      assert init[0] == t[0];
      assert tail[n - 2] == t[n - 1];
      assert GroupSum(t) == GroupSum(init) + (t[n - 1] % 128) * Pow2(7 * (n - 1));
      assert GroupSum(tail) == GroupSum(tail[..n - 2]) + (tail[n - 2] % 128) * Pow2(7 * (n - 2));
      Pow2Add(7 * (n - 2), 7);
      assert Pow2(7) == 128;
      ShiftGroup(t[0] % 128, GroupSum(init[1..]), t[n - 1] % 128, Pow2(7 * (n - 2)), Pow2(7 * (n - 1)));
    } else {
      assert t[..0] == [];
    }
  }

  /** The arithmetic step of `GroupSumFront`: moving the last group under the factor 128. */
  lemma ShiftGroup(first: int, middle: int, last: int, p: int, q: int)
    requires q == 128 * p
    ensures (first + 128 * middle) + last * q == first + 128 * (middle + last * p)
  {
  }

  /**
   * `parse_varint` in full: on success the varint spans exactly the bytes up to
   * and including the first one below 0x80 and its value is their group sum;
   * it fails exactly when every remaining byte has the continuation bit.
   */
  lemma {:induction false} VarintCharacterised(s: Bytes)
    ensures match Varint(s)
            case Ok(vn) => VarintFrame(s, vn.1) && vn.0 == GroupSum(s[..vn.1])
            case Err(_) => forall k | 0 <= k < |s| :: s[k] >= 128
    decreases |s|
  {
    if |s| == 0 {
    } else if s[0] < 128 {
      assert s[..1] == [s[0]];
      assert s[..1][..0] == [];
    } else {
      VarintCharacterised(s[1..]);
      match Varint(s[1..])
      case Err(_) =>
        ContinuationsCons(s);
      case Ok(tail) =>
        FrameCons(s, tail.1);
        GroupSumCons(s, tail.1);
    }
  }

  /** A continuation byte in front of a frame gives a frame one byte longer. */
  lemma FrameCons(s: Bytes, m: nat)
    requires |s| >= 1 && s[0] >= 128 && VarintFrame(s[1..], m)
    ensures VarintFrame(s, m + 1)
  {
    assert s[1..][m - 1] == s[m];
    forall k | 0 <= k < m ensures s[k] >= 128 {
      if k > 0 { assert s[k] == s[1..][k - 1]; }
    }
  }

  /** A continuation byte in front of continuation bytes. */
  lemma ContinuationsCons(s: Bytes)
    requires |s| >= 1 && s[0] >= 128 && forall k | 0 <= k < |s| - 1 :: s[1..][k] >= 128
    ensures forall k | 0 <= k < |s| :: s[k] >= 128
  {
    forall k | 0 <= k < |s| ensures s[k] >= 128 {
      if k > 0 { assert s[k] == s[1..][k - 1]; }
    }
  }

  /** The group sum of `m + 1` bytes is the first group plus 128 times the rest. */
  lemma GroupSumCons(s: Bytes, m: nat)
    requires m + 1 <= |s|
    ensures GroupSum(s[..m + 1]) == s[0] % 128 + 128 * GroupSum(s[1..][..m])
  {
    GroupSumFront(s[..m + 1]);
    assert s[..m + 1][0] == s[0];
    assert s[..m + 1][1..] == s[1..][..m];
  }

  /** A buffer starts with at most one varint frame. */
  lemma FrameUnique(s: Bytes, m: nat, n: nat)
    requires VarintFrame(s, m) && VarintFrame(s, n)
    ensures m == n
  {
  }

  /** The bytes up to the first one below 0x80 are the varint, and their group sum is its value. */
  lemma VarintOfFrame(s: Bytes, n: nat)
    requires VarintFrame(s, n)
    ensures Varint(s) == Ok((GroupSum(s[..n]), n))
  {
    VarintCharacterised(s);
    assert s[n - 1] < 128;
    FrameUnique(s, Varint(s).value.1, n);
  }

  /** Bytes that all carry the continuation bit hold no varint: reading one runs off the end. */
  lemma VarintOfContinuations(s: Bytes)
    requires forall k | 0 <= k < |s| :: s[k] >= 128
    ensures Varint(s) == Err(TruncatedInput)
  {
    VarintCharacterised(s);
  }

  /** Decoding the encoding of any natural number gives it back and consumes exactly the encoding. */
  lemma {:induction false} VarintRoundTrip(v: nat, rest: Bytes)
    ensures Varint(EncodeVarint(v) + rest) == Ok((v, |EncodeVarint(v)|))
    decreases v
  {
    if v >= 128 {
      VarintRoundTrip(v / 128, rest);
      assert (EncodeVarint(v) + rest)[1..] == EncodeVarint(v / 128) + rest;
    }
  }

  // ---------------------------------------------------------------------------
  // Keys
  // ---------------------------------------------------------------------------

  /** `parse_key`: the key varint split into field number (`v >> 3`) and wire type (`v & 7`). */
  function SplitKey(v: nat): (r: (nat, nat))
    ensures r.0 * 8 + r.1 == v && r.1 < 8
  {
    (v / 8, v % 8)
  }

  /** The key the encoder writes for a field number and a wire type below 8. */
  function MakeKey(number: nat, wireType: nat): nat {
    number * 8 + wireType
  }

  lemma KeyRoundTrip(number: nat, wireType: nat)
    requires wireType < 8
    ensures SplitKey(MakeKey(number, wireType)) == (number, wireType)
  {
    var v := MakeKey(number, wireType);
    assert v / 8 == number && v % 8 == wireType by {
      var q, w := v / 8, v % 8;
      assert q * 8 + w == number * 8 + wireType;
      assert (q - number) * 8 == wireType - w;
    }
  }

  // ---------------------------------------------------------------------------
  // Length-delimited slices
  // ---------------------------------------------------------------------------

  /**
   * `parse_length_delimited` on a suffix: a length varint, then the slice of
   * that many bytes as Python slices it (cut short at the end of the buffer),
   * and the count of bytes the cursor moves, which is never cut short.
   */
  function LengthDelimited(s: Bytes): (r: Result<(Bytes, nat), DecodeError>)
    ensures r.Err? ==> r.error == TruncatedInput
  {
    var lv :- Varint(s);
    Ok((Slice(s, lv.1, lv.1 + lv.0), lv.1 + lv.0))
  }

  // ---------------------------------------------------------------------------
  // Fields
  // ---------------------------------------------------------------------------

  /** What follows a key on the wire, by wire type. */
  datatype Payload =
    | VarintValue(value: nat)      // wire type 0
    | Fixed64(raw: Bytes)          // wire type 1: the eight bytes the cursor steps over
    | LengthPrefixed(body: Bytes)  // wire type 2
    | Fixed32(raw: Bytes)          // wire type 5: the four bytes the cursor steps over
    | NoPayload(wireType: nat)     // any other wire type: nothing is consumed
  {
    function WireType(): nat {
      match this
      case VarintValue(_) => VARINT
      case Fixed64(_) => FIXED64
      case LengthPrefixed(_) => LENGTH_DELIMITED
      case Fixed32(_) => FIXED32
      case NoPayload(w) => w
    }
  }

  /** One field as the message loops meet it: its number and its payload. */
  datatype Field = Field(number: nat, payload: Payload)

  /** The payload of the given wire type at the front of `s`, and the bytes the cursor moves past it. */
  function ReadPayload(wireType: nat, s: Bytes): (r: Result<(Payload, nat), DecodeError>)
    ensures r.Ok? ==> r.value.0.WireType() == wireType
    ensures r.Err? ==> r.error == TruncatedInput
  {
    if wireType == VARINT then
      var v :- Varint(s);
      Ok((VarintValue(v.0), v.1))
    else if wireType == FIXED64 then
      Ok((Fixed64(Slice(s, 0, 8)), 8))
    else if wireType == LENGTH_DELIMITED then
      var ld :- LengthDelimited(s);
      Ok((LengthPrefixed(ld.0), ld.1))
    else if wireType == FIXED32 then
      Ok((Fixed32(Slice(s, 0, 4)), 4))
    else
      Ok((NoPayload(wireType), 0))
  }

  /**
   * One turn of a message loop: the key, then the payload, and the number of
   * bytes consumed, which is at least the one byte of the key.
   */
  function NextField(s: Bytes): (r: Result<(Field, nat), DecodeError>)
    ensures r.Ok? ==> r.value.1 >= 1
    ensures r.Err? ==> r.error == TruncatedInput
  {
    var kv :- Varint(s);
    var key := SplitKey(kv.0);
    var p :- ReadPayload(key.1, s[kv.1..]);
    Ok((Field(key.0, p.0), kv.1 + p.1))
  }

  // ---------------------------------------------------------------------------
  // Encoding, the inverse the lemmas are stated against
  // ---------------------------------------------------------------------------

  /** A payload that an encoder can produce: fixed widths have their width, and
      a payload without bytes has one of the wire types 3, 4, 6, 7. */
  predicate WellFormedPayload(p: Payload) {
    match p
    case Fixed64(raw) => |raw| == 8
    case Fixed32(raw) => |raw| == 4
    case NoPayload(w) => w == 3 || w == 4 || w == 6 || w == 7
    case _ => true
  }

  function EncodePayload(p: Payload): Bytes {
    match p
    case VarintValue(v) => EncodeVarint(v)
    case Fixed64(raw) => raw
    case LengthPrefixed(body) => EncodeVarint(|body|) + body
    case Fixed32(raw) => raw
    case NoPayload(_) => []
  }

  function EncodeField(f: Field): (r: Bytes)
    ensures |r| >= 1
  {
    EncodeVarint(MakeKey(f.number, f.payload.WireType())) + EncodePayload(f.payload)
  }

  /**
   * `skip_field` lands exactly on the next field: reading a well-formed payload
   * of any wire type consumes exactly its encoding.
   */
  lemma PayloadRoundTrip(p: Payload, rest: Bytes)
    requires WellFormedPayload(p)
    ensures ReadPayload(p.WireType(), EncodePayload(p) + rest) == Ok((p, |EncodePayload(p)|))
  {
    var s := EncodePayload(p) + rest;
    match p
    case VarintValue(v) =>
      VarintRoundTrip(v, rest);
    case Fixed64(raw) =>
      assert s[0..8] == raw;
    case Fixed32(raw) =>
      assert s[0..4] == raw;
    case LengthPrefixed(body) =>
      var k := |EncodeVarint(|body|)|;
      assert s == EncodeVarint(|body|) + (body + rest);
      VarintRoundTrip(|body|, body + rest);
      assert s[k..k + |body|] == body;
    case NoPayload(_) =>
  }

  /** Reading a well-formed encoded field gives the field back and consumes exactly its encoding. */
  lemma FieldRoundTrip(f: Field, rest: Bytes)
    requires WellFormedPayload(f.payload)
    ensures NextField(EncodeField(f) + rest) == Ok((f, |EncodeField(f)|))
  {
    var w := f.payload.WireType();
    var v := MakeKey(f.number, w);
    var key := EncodeVarint(v);
    var tail := EncodePayload(f.payload) + rest;
    var s := EncodeField(f) + rest;
    assert s == key + tail;
    assert Varint(s) == Ok((v, |key|)) by {
      VarintRoundTrip(v, tail);
    }
    assert SplitKey(v) == (f.number, w) by {
      KeyRoundTrip(f.number, w);
    }
    assert s[|key|..] == tail;
    assert ReadPayload(w, tail) == Ok((f.payload, |EncodePayload(f.payload)|)) by {
      PayloadRoundTrip(f.payload, rest);
    }
  }

  /**
   * A declared length that runs past the end of the buffer is not an error:
   * the slice is whatever bytes remain and the cursor moves the full length.
   */
  lemma OverlongLength(length: nat, body: Bytes)
    requires |body| < length
    ensures LengthDelimited(EncodeVarint(length) + body) == Ok((body, |EncodeVarint(length)| + length))
  {
    VarintRoundTrip(length, body);
    var s := EncodeVarint(length) + body;
    var k := |EncodeVarint(length)|;
    assert s[k..|s|] == body;
  }

  // ---------------------------------------------------------------------------
  // Reads at an absolute cursor position
  // ---------------------------------------------------------------------------

  /** The key at cursor `index`: field number, wire type, and the cursor just past the key. */
  function KeyAt(data: Bytes, index: nat): (r: Result<(nat, nat, nat), DecodeError>)
    ensures r.Ok? <==> Varint(Rest(data, index)).Ok?
    ensures r.Ok? ==> r.value.0 * 8 + r.value.1 == Varint(Rest(data, index)).value.0 && r.value.1 < 8
    ensures r.Ok? ==> index < r.value.2 <= |data|
    ensures r.Err? ==> r.error == TruncatedInput
  {
    var kv :- Varint(Rest(data, index));
    var key := SplitKey(kv.0);
    Ok((key.0, key.1, index + kv.1))
  }

  /** The payload of the given wire type at cursor `index`, and the cursor just past it. */
  function PayloadAt(wireType: nat, data: Bytes, index: nat): (r: Result<(Payload, nat), DecodeError>)
    ensures r.Ok? ==> r.value.0.WireType() == wireType && index <= r.value.1
    ensures r.Ok? ==> (r.value.0.VarintValue? <==> wireType == VARINT)
    ensures r.Ok? ==> (r.value.0.LengthPrefixed? <==> wireType == LENGTH_DELIMITED)
    ensures r.Err? ==> r.error == TruncatedInput
  {
    Offset(ReadPayload(wireType, Rest(data, index)), index)
  }

  // ---------------------------------------------------------------------------
  // The source's cursor procedures
  // ---------------------------------------------------------------------------

  /**
   * `parse_varint(data, index)`: reads bytes from `index`, adding the low
   * seven bits of each, shifted by 7 per byte, until a byte below 0x80. The
   * source ORs each group into `result`; the groups occupy disjoint bits, so
   * that is the addition written here. Running off the end raises IndexError.
   */
  method ParseVarint(data: Bytes, index: nat) returns (r: Result<(nat, nat), DecodeError>)
    ensures r == Offset(Varint(Rest(data, index)), index)
  {
    ghost var s := Rest(data, index);
    var i := index;
    var shift := 0;
    var result := 0;
    while true
      invariant index <= i && i - index <= |s|
      invariant i > index ==> i <= |data|
      invariant shift == 7 * (i - index)
      invariant result == GroupSum(s[..i - index])
      invariant forall k | 0 <= k < i - index :: s[k] >= 128
      decreases |data| - i
    {
      if i >= |data| {
        VarintOfContinuations(s);
        return Err(TruncatedInput);
      }
      var b := data[i];
      ghost var j := i - index;
      assert b == s[j];
      assert GroupSum(s[..j + 1]) == GroupSum(s[..j]) + (b % 128) * Pow2(7 * j) by {
        assert s[..j + 1][..j] == s[..j];
        assert s[..j + 1][j] == b;
      }
      i := i + 1;
      result := result + (b % 128) * Pow2(shift);
      shift := shift + 7;
      if b < 128 {
        VarintOfFrame(s, i - index);
        return Ok((result, i));
      }
    }
  }

  /** `parse_key(data, index)`: one varint, split into field number and wire type. */
  method ParseKey(data: Bytes, index: nat) returns (r: Result<(nat, nat, nat), DecodeError>)
    ensures r == KeyAt(data, index)
  {
    var vi :- ParseVarint(data, index);
    var key := SplitKey(vi.0);
    return Ok((key.0, key.1, vi.1));
  }

  /** `parse_length_delimited(data, index)`: returns `data[i:i+length]` and `i + length`. */
  method ParseLengthDelimited(data: Bytes, index: nat) returns (r: Result<(Bytes, nat), DecodeError>)
    ensures r == Offset(LengthDelimited(Rest(data, index)), index)
  {
    var li :- ParseVarint(data, index);
    var length, next := li.0, li.1;
    ghost var s := Rest(data, index);
    ghost var k := next - index;
    assert Slice(data, next, next + length) == Slice(s, k, k + length);
    return Ok((Slice(data, next, next + length), next + length));
  }

  /**
   * `skip_field(data, wire_type, index)`: the new cursor after a field the
   * caller does not use.
   */
  method SkipField(data: Bytes, wireType: nat, index: nat) returns (r: Result<nat, DecodeError>)
    ensures r == match PayloadAt(wireType, data, index) case Ok(pn) => Ok(pn.1) case Err(e) => Err(e)
    ensures wireType == VARINT ==>
              r == match Varint(Rest(data, index)) case Ok(vn) => Ok(index + vn.1) case Err(e) => Err(e)
    ensures wireType == FIXED64 ==> r == Ok(index + 8)
    ensures wireType == LENGTH_DELIMITED ==>
              r == match Varint(Rest(data, index)) case Ok(vn) => Ok(index + vn.1 + vn.0) case Err(e) => Err(e)
    ensures wireType == FIXED32 ==> r == Ok(index + 4)
    ensures wireType !in {VARINT, FIXED64, LENGTH_DELIMITED, FIXED32} ==> r == Ok(index)
  {
    var i := index;
    if wireType == VARINT {
      var vi :- ParseVarint(data, i);
      i := vi.1;
    } else if wireType == FIXED64 {
      i := i + 8;
    } else if wireType == LENGTH_DELIMITED {
      var li :- ParseVarint(data, i);
      i := li.1 + li.0;
    } else if wireType == FIXED32 {
      i := i + 4;
    }
    // START_GROUP, END_GROUP and the unused wire types 6 and 7 consume nothing.
    return Ok(i);
  }
}

/**
 * The shape every message loop of lib/partial_protobuf_feed.py shares:
 * `while idx < end`, read one key, handle or skip its payload, go on.
 *
 * `Scan` lists the fields a buffer holds in wire order, ending in `End` when
 * the cursor reaches or jumps past the end of the buffer, or in `Truncated`
 * when a key or payload varint runs off it. `Fold` then applies a message's
 * per-field handler to the fields in order; a handler error stops it at once,
 * so errors surface in the same order as in the source's loops.
 */
module FieldStream {
  import opened Wrappers
  import opened Wire

  datatype Stream = End | Truncated | Next(field: Field, rest: Stream)

  /** The fields of `s` in the order a message loop meets them. */
  function Scan(s: Bytes): Stream
    decreases |s|
  {
    if |s| == 0 then End
    else
      match NextField(s)
      case Err(_) => Truncated
      case Ok(fn) => Next(fn.0, if fn.1 >= |s| then End else Scan(s[fn.1..]))
  }

  /** The fields a loop meets from cursor `index` on. */
  function ScanFrom(data: Bytes, index: nat): Stream {
    Scan(Rest(data, index))
  }

  /** A message decoder: the handler applied to each field in turn, from the defaults `m`. */
  function Fold<M>(apply: (M, Field) -> Result<M, DecodeError>, m: M, st: Stream): Result<M, DecodeError>
    decreases st
  {
    match st
    case End => Ok(m)
    case Truncated => Err(TruncatedInput)
    case Next(f, rest) =>
      var m' :- apply(m, f);
      Fold(apply, m', rest)
  }

  /** `fs` followed by the stream `tail`. */
  function Prepend(fs: seq<Field>, tail: Stream): Stream
    decreases |fs|
  {
    if |fs| == 0 then tail else Next(fs[0], Prepend(fs[1..], tail))
  }

  function EncodeFields(fs: seq<Field>): Bytes
    decreases |fs|
  {
    if |fs| == 0 then [] else EncodeField(fs[0]) + EncodeFields(fs[1..])
  }

  predicate AllWellFormed(fs: seq<Field>) {
    forall k | 0 <= k < |fs| :: WellFormedPayload(fs[k].payload)
  }

  predicate EndsTruncated(st: Stream) {
    match st
    case End => false
    case Truncated => true
    case Next(_, rest) => EndsTruncated(rest)
  }

  /** The handler leaves every message unchanged on field `f`: the loop skips it. */
  ghost predicate Ignores<M(!new)>(apply: (M, Field) -> Result<M, DecodeError>, f: Field) {
    forall m: M :: apply(m, f) == Ok(m)
  }

  /** The field at cursor `index` and the cursor just past it. */
  function FieldAt(data: Bytes, index: nat): (r: Result<(Field, nat), DecodeError>)
    ensures r.Ok? ==> index < r.value.1
    ensures r.Err? ==> r.error == TruncatedInput
  {
    Offset(NextField(Rest(data, index)), index)
  }

  /**
   * One loop turn at cursor `index < end`: the field at the cursor, then the
   * fields from just past it; or the end of the loop by an exception when
   * the key or payload varint runs off the end.
   */
  lemma ScanStep(data: Bytes, index: nat)
    requires index < |data|
    ensures ScanFrom(data, index) == match FieldAt(data, index)
                                     case Err(_) => Truncated
                                     case Ok(fn) => Next(fn.0, ScanFrom(data, fn.1))
  {
    var s := Rest(data, index);
    match NextField(s) {
      case Err(_) =>
      case Ok(fn) =>
        if fn.1 < |s| {
          assert s[fn.1..] == Rest(data, index + fn.1);
        }
    }
  }

  /** The field at a cursor is its key, then the payload from just past the key. */
  lemma FieldAtSplit(data: Bytes, index: nat)
    ensures FieldAt(data, index) == match KeyAt(data, index)
                                    case Err(e) => Err(e)
                                    case Ok(k) =>
                                      match PayloadAt(k.1, data, k.2)
                                      case Err(e) => Err(e)
                                      case Ok(pn) => Ok((Field(k.0, pn.0), pn.1))
  {
    var s := Rest(data, index);
    match Varint(s) {
      case Err(e) =>
        assert KeyAt(data, index) == Err(e);
        assert NextField(s) == Err(e);
      case Ok(kv) =>
        var k := SplitKey(kv.0);
        var next := index + kv.1;
        assert KeyAt(data, index) == Ok((k.0, k.1, next));
        assert s[kv.1..] == Rest(data, next);
        match ReadPayload(k.1, Rest(data, next)) {
          case Err(e) =>
            assert NextField(s) == Err(e);
            assert PayloadAt(k.1, data, next) == Err(e);
          case Ok(p) =>
            assert NextField(s) == Ok((Field(k.0, p.0), kv.1 + p.1));
            assert PayloadAt(k.1, data, next) == Ok((p.0, next + p.1));
        }
    }
  }

  /** A key with wire type 0: the field is the varint that follows it. */
  lemma VarintFieldAt(data: Bytes, index: nat)
    requires KeyAt(data, index).Ok? && KeyAt(data, index).value.1 == VARINT
    ensures var k := KeyAt(data, index).value;
            FieldAt(data, index) == match Offset(Varint(Rest(data, k.2)), k.2)
                                    case Ok(vn) => Ok((Field(k.0, VarintValue(vn.0)), vn.1))
                                    case Err(e) => Err(e)
  {
    FieldAtSplit(data, index);
  }

  /** A key with wire type 2: the field is the length-delimited body that follows it. */
  lemma BytesFieldAt(data: Bytes, index: nat)
    requires KeyAt(data, index).Ok? && KeyAt(data, index).value.1 == LENGTH_DELIMITED
    ensures var k := KeyAt(data, index).value;
            FieldAt(data, index) == match Offset(LengthDelimited(Rest(data, k.2)), k.2)
                                    case Ok(ln) => Ok((Field(k.0, LengthPrefixed(ln.0)), ln.1))
                                    case Err(e) => Err(e)
  {
    FieldAtSplit(data, index);
  }

  /** The decoder's view of one loop turn: handle the field at the cursor, then go on past it. */
  lemma FoldStep<M>(apply: (M, Field) -> Result<M, DecodeError>, m: M, data: Bytes, index: nat)
    requires index < |data|
    ensures Fold(apply, m, ScanFrom(data, index)) ==
              match FieldAt(data, index)
              case Err(e) => Err(e)
              case Ok(fn) => (match apply(m, fn.0) case Err(e) => Err(e) case Ok(m') => Fold(apply, m', ScanFrom(data, fn.1)))
  {
    ScanStep(data, index);
  }

  /** The loop of any message ends when the cursor starts at or past the end. */
  lemma ScanFromEnd(data: Bytes, index: nat)
    requires index >= |data|
    ensures ScanFrom(data, index) == End
  {
  }

  lemma ScanFromStart(data: Bytes)
    ensures ScanFrom(data, 0) == Scan(data)
  {
    assert Rest(data, 0) == data;
  }

  lemma {:induction false} EncodeFieldsAppend(fs: seq<Field>, f: Field)
    ensures EncodeFields(fs + [f]) == EncodeFields(fs) + EncodeField(f)
    decreases |fs|
  {
    if |fs| == 0 {
      assert fs + [f] == [f];
      assert EncodeFields([f]) == EncodeField(f) + EncodeFields([]);
    } else {
      assert (fs + [f])[1..] == fs[1..] + [f];
      EncodeFieldsAppend(fs[1..], f);
    }
  }

  /**
   * Framing: a buffer that starts with well-formed encoded fields scans as
   * those fields, in order, followed by the scan of whatever comes after them.
   */
  lemma {:induction false} ScanEncoded(fs: seq<Field>, rest: Bytes)
    requires AllWellFormed(fs)
    ensures Scan(EncodeFields(fs) + rest) == Prepend(fs, Scan(rest))
    decreases |fs|
  {
    if |fs| > 0 {
      var head := EncodeField(fs[0]);
      var s := EncodeFields(fs) + rest;
      assert s == head + (EncodeFields(fs[1..]) + rest);
      FieldRoundTrip(fs[0], EncodeFields(fs[1..]) + rest);
      assert AllWellFormed(fs[1..]) by {
        forall k | 0 <= k < |fs[1..]| ensures WellFormedPayload(fs[1..][k].payload) {
          assert fs[1..][k] == fs[k + 1];
        }
      }
      ScanEncoded(fs[1..], rest);
      assert NextField(s) == Ok((fs[0], |head|));
      if |fs| == 1 && |rest| == 0 {
        assert fs[1..] == [] && s == head;
        assert Scan(s) == Next(fs[0], End);
      } else {
        if |fs| > 1 {
          assert |EncodeFields(fs[1..])| >= |EncodeField(fs[1..][0])|;
        }
        assert |EncodeFields(fs[1..]) + rest| > 0;
        assert s[|head|..] == EncodeFields(fs[1..]) + rest;
        assert Scan(s) == Next(fs[0], Scan(EncodeFields(fs[1..]) + rest));
      }
      assert Prepend(fs, Scan(rest)) == Next(fs[0], Prepend(fs[1..], Scan(rest)));
    } else {
      assert EncodeFields(fs) + rest == rest;
    }
  }

  /** A field the handler ignores can be taken out of the stream without changing the decode. */
  lemma {:induction false} IgnoredFieldIsInvisible<M(!new)>(apply: (M, Field) -> Result<M, DecodeError>, m: M, fs: seq<Field>, u: Field, tail: Stream)
    requires Ignores(apply, u)
    ensures Fold(apply, m, Prepend(fs + [u], tail)) == Fold(apply, m, Prepend(fs, tail))
    decreases |fs|
  {
    if |fs| == 0 {
      assert fs + [u] == [u];
      assert Prepend([u], tail) == Next(u, Prepend([], tail));
      assert apply(m, u) == Ok(m);
    } else {
      assert (fs + [u])[0] == fs[0];
      assert (fs + [u])[1..] == fs[1..] + [u];
      match apply(m, fs[0]) {
        case Err(_) =>
        case Ok(m') => IgnoredFieldIsInvisible(apply, m', fs[1..], u, tail);
      }
    }
  }

  /**
   * Unknown-field tolerance at the byte level: inserting a well-formed field
   * that the handler ignores between well-formed fields leaves the decoded
   * message, or the error, unchanged.
   */
  lemma UnknownFieldIsSkipped<M(!new)>(apply: (M, Field) -> Result<M, DecodeError>, m: M, fs: seq<Field>, u: Field, rest: Bytes)
    requires AllWellFormed(fs) && WellFormedPayload(u.payload)
    requires Ignores(apply, u)
    ensures Fold(apply, m, Scan(EncodeFields(fs) + EncodeField(u) + rest)) == Fold(apply, m, Scan(EncodeFields(fs) + rest))
  {
    EncodeFieldsAppend(fs, u);
    assert AllWellFormed(fs + [u]) by {
      forall k | 0 <= k < |fs + [u]| ensures WellFormedPayload((fs + [u])[k].payload) {
        if k < |fs| { assert (fs + [u])[k] == fs[k]; }
      }
    }
    ScanEncoded(fs + [u], rest);
    ScanEncoded(fs, rest);
    IgnoredFieldIsInvisible(apply, m, fs, u, Scan(rest));
  }

  /** A stream that ends in a truncated varint never decodes: there is no partial message. */
  lemma {:induction false} TruncatedStreamFails<M>(apply: (M, Field) -> Result<M, DecodeError>, m: M, st: Stream)
    requires EndsTruncated(st)
    ensures Fold(apply, m, st).Err?
    decreases st
  {
    match st
    case Truncated =>
    case Next(f, rest) =>
      match apply(m, f) {
        case Err(_) =>
        case Ok(m') => TruncatedStreamFails(apply, m', rest);
      }
  }

  /**
   * Cutting a buffer inside a varint: well-formed fields followed by bytes
   * that all carry the continuation bit make every message decoder fail.
   */
  lemma CutInsideVarintFails<M>(apply: (M, Field) -> Result<M, DecodeError>, m: M, fs: seq<Field>, cut: Bytes)
    requires AllWellFormed(fs)
    requires |cut| > 0 && forall k | 0 <= k < |cut| :: cut[k] >= 128
    ensures Fold(apply, m, Scan(EncodeFields(fs) + cut)).Err?
  {
    ScanEncoded(fs, cut);
    VarintCharacterised(cut);
    assert Scan(cut) == Truncated;
    PrependKeepsEnd(fs, Scan(cut));
    TruncatedStreamFails(apply, m, Prepend(fs, Scan(cut)));
  }

  lemma {:induction false} PrependKeepsEnd(fs: seq<Field>, tail: Stream)
    ensures EndsTruncated(Prepend(fs, tail)) == EndsTruncated(tail)
    decreases |fs|
  {
    if |fs| > 0 {
      PrependKeepsEnd(fs[1..], tail);
    }
  }

  /**
   * An over-long length is not an error: a last field whose declared length
   * runs past the end yields the remaining bytes as its body, the cursor
   * jumps past the end and the loop stops cleanly.
   */
  lemma OverlongLastFieldEndsScan(number: nat, length: nat, body: Bytes)
    requires |body| < length
    ensures Scan(EncodeVarint(MakeKey(number, LENGTH_DELIMITED)) + EncodeVarint(length) + body)
         == Next(Field(number, LengthPrefixed(body)), End)
  {
    var key := EncodeVarint(MakeKey(number, LENGTH_DELIMITED));
    var s := key + EncodeVarint(length) + body;
    assert s == key + (EncodeVarint(length) + body);
    VarintRoundTrip(MakeKey(number, LENGTH_DELIMITED), EncodeVarint(length) + body);
    KeyRoundTrip(number, LENGTH_DELIMITED);
    assert s[|key|..] == EncodeVarint(length) + body;
    OverlongLength(length, body);
  }

  /** A stream made only of ignored fields decodes to the defaults it started from. */
  lemma {:induction false} OnlyIgnoredFields<M(!new)>(apply: (M, Field) -> Result<M, DecodeError>, m: M, fs: seq<Field>)
    requires forall k | 0 <= k < |fs| :: Ignores(apply, fs[k])
    ensures Fold(apply, m, Prepend(fs, End)) == Ok(m)
    decreases |fs|
  {
    if |fs| > 0 {
      assert Ignores(apply, fs[0]);
      assert apply(m, fs[0]) == Ok(m);
      assert forall k | 0 <= k < |fs[1..]| :: fs[1..][k] == fs[k + 1];
      OnlyIgnoredFields(apply, m, fs[1..]);
    }
  }

  /** A buffer made of well-formed encoded fields decodes as those fields, in order. */
  lemma DecodeEncodedFields<M>(apply: (M, Field) -> Result<M, DecodeError>, m: M, fs: seq<Field>)
    requires AllWellFormed(fs)
    ensures Fold(apply, m, Scan(EncodeFields(fs))) == Fold(apply, m, Prepend(fs, End))
  {
    ScanEncoded(fs, []);
    assert EncodeFields(fs) + [] == EncodeFields(fs);
  }

  /** The handler meets the last field of a buffer after all the others. */
  lemma {:induction false} FoldSnoc<M>(apply: (M, Field) -> Result<M, DecodeError>, m: M, fs: seq<Field>, f: Field)
    ensures Fold(apply, m, Prepend(fs + [f], End))
         == match Fold(apply, m, Prepend(fs, End)) case Err(e) => Err(e) case Ok(m') => apply(m', f)
    decreases |fs|
  {
    if |fs| == 0 {
      assert fs + [f] == [f];
      assert Prepend([f], End) == Next(f, Prepend([], End));
    } else {
      assert (fs + [f])[0] == fs[0];
      assert (fs + [f])[1..] == fs[1..] + [f];
      match apply(m, fs[0]) {
        case Err(_) =>
        case Ok(m1) => FoldSnoc(apply, m1, fs[1..], f);
      }
    }
  }

  /** The value `pick` chooses from the last field it chooses from, or `default` when there is none. */
  function LastPicked<X>(fs: seq<Field>, pick: Field -> Option<X>, default: X): X
    decreases |fs|
  {
    if |fs| == 0 then default
    else
      match pick(fs[|fs| - 1])
      case Some(x) => x
      case None => LastPicked(fs[..|fs| - 1], pick, default)
  }

  /**
   * Last value wins: when each field the handler accepts sets the part `proj`
   * of the message to what `pick` chooses from that field (and leaves it
   * alone when `pick` chooses nothing), a decoded message holds the choice
   * from the last such field, or the starting value when there is none.
   */
  lemma {:induction false} LastValueWins<M(!new), X>(apply: (M, Field) -> Result<M, DecodeError>, proj: M -> X,
                                                    pick: Field -> Option<X>, m: M, fs: seq<Field>)
    requires forall m1: M, f: Field :: apply(m1, f).Ok? ==>
               proj(apply(m1, f).value) == (if pick(f).Some? then pick(f).value else proj(m1))
    ensures Fold(apply, m, Prepend(fs, End)).Ok? ==>
              proj(Fold(apply, m, Prepend(fs, End)).value) == LastPicked(fs, pick, proj(m))
    decreases |fs|
  {
    if |fs| > 0 {
      var init, last := fs[..|fs| - 1], fs[|fs| - 1];
      assert fs == init + [last];
      FoldSnoc(apply, m, init, last);
      LastValueWins(apply, proj, pick, m, init);
    }
  }

  /** The bodies of the length-delimited fields numbered `number`, in wire order. */
  function Bodies(fs: seq<Field>, number: nat): seq<Bytes>
    decreases |fs|
  {
    if |fs| == 0 then []
    else
      var f := fs[|fs| - 1];
      Bodies(fs[..|fs| - 1], number) + if f.number == number && f.payload.LengthPrefixed? then [f.payload.body] else []
  }

  /** `xs` holds one element per body, each what `dec` decodes that body to. */
  predicate AllDecodeTo<X(==)>(bodies: seq<Bytes>, xs: seq<X>, dec: Bytes -> Result<X, DecodeError>) {
    |bodies| == |xs| && forall k | 0 <= k < |xs| :: dec(bodies[k]) == Ok(xs[k])
  }

  /**
   * A repeated field: when the handler appends the decoding of each
   * length-delimited field `number` to the list `list` and leaves the list
   * alone on every other field, a decoded message lists exactly one element
   * per such field, in wire order.
   */
  lemma {:induction false} RepeatedFieldInOrder<M(!new), X>(apply: (M, Field) -> Result<M, DecodeError>, list: M -> seq<X>,
                                                           number: nat, dec: Bytes -> Result<X, DecodeError>, m: M, fs: seq<Field>)
    requires list(m) == []
    requires forall m1: M, f: Field :: apply(m1, f).Ok? ==>
               if f.number == number && f.payload.LengthPrefixed?
               then dec(f.payload.body).Ok? && list(apply(m1, f).value) == list(m1) + [dec(f.payload.body).value]
               else list(apply(m1, f).value) == list(m1)
    ensures Fold(apply, m, Prepend(fs, End)).Ok? ==>
              AllDecodeTo(Bodies(fs, number), list(Fold(apply, m, Prepend(fs, End)).value), dec)
    decreases |fs|
  {
    if |fs| > 0 {
      var init, last := fs[..|fs| - 1], fs[|fs| - 1];
      assert fs == init + [last];
      FoldSnoc(apply, m, init, last);
      RepeatedFieldInOrder(apply, list, number, dec, m, init);
      var r := Fold(apply, m, Prepend(fs, End));
      if r.Ok? {
        var m' := Fold(apply, m, Prepend(init, End)).value;
        assert r == apply(m', last);
        if last.number == number && last.payload.LengthPrefixed? {
          var xs := list(r.value);
          assert xs == list(m') + [dec(last.payload.body).value];
          assert Bodies(fs, number) == Bodies(init, number) + [last.payload.body];
          forall k | 0 <= k < |xs| ensures dec(Bodies(fs, number)[k]) == Ok(xs[k]) {
            if k < |list(m')| {
              assert xs[k] == list(m')[k];
              assert Bodies(fs, number)[k] == Bodies(init, number)[k];
            }
          }
        } else {
          assert Bodies(fs, number) == Bodies(init, number);
        }
      }
    }
  }

  /** A handler that accepts every field makes the decoder fail exactly on a truncated stream. */
  lemma {:induction false} TotalHandlerFailsOnlyOnTruncation<M(!new)>(apply: (M, Field) -> Result<M, DecodeError>, m: M, st: Stream)
    requires forall m1: M, f: Field :: apply(m1, f).Ok?
    ensures Fold(apply, m, st).Err? <==> EndsTruncated(st)
    decreases st
  {
    match st
    case End =>
    case Truncated =>
    case Next(f, rest) =>
      assert apply(m, f).Ok?;
      TotalHandlerFailsOnlyOnTruncation(apply, apply(m, f).value, rest);
  }
}

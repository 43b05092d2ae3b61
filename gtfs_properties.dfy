/**
 * What the GTFS-realtime decoders promise about buffers written by a
 * protobuf encoder (`EncodeFields`): unknown fields are skipped, a scalar
 * that occurs more than once keeps its last value, absent fields keep their
 * defaults, and repeated sub-messages are kept one per entry in wire order.
 */
module FeedProperties {
  import opened Wrappers
  import opened Wire
  import opened Utf8
  import opened FieldStream
  import opened GtfsFeed

  // ---------------------------------------------------------------------------
  // What a single field sets, as the handlers store it
  // ---------------------------------------------------------------------------

  function SetsVarint(f: Field, number: nat): Option<Option<nat>> {
    if IsVarint(f, number) then Some(Some(f.payload.value)) else None
  }

  function SetsString(f: Field, number: nat): Option<Option<Text>> {
    if IsBytes(f, number) && WellFormed(f.payload.body) then Some(Some(f.payload.body)) else None
  }

  function SetsTime(f: Field, number: nat): Option<Time> {
    if IsBytes(f, number) && DecodeTime(f.payload.body).Ok? then Some(DecodeTime(f.payload.body).value) else None
  }

  function TimeOf(f: Field): Option<Time> { SetsVarint(f, 2) }
  function StopSequenceOf(f: Field): Option<Option<nat>> { SetsVarint(f, 1) }
  function StopIdOf(f: Field): Option<Option<Text>> { SetsString(f, 4) }
  function ArrivalOf(f: Field): Option<Time> { SetsTime(f, 2) }
  function DepartureOf(f: Field): Option<Time> { SetsTime(f, 3) }
  function TripIdOf(f: Field): Option<Option<Text>> { SetsString(f, 1) }
  function RouteIdOf(f: Field): Option<Option<Text>> { SetsString(f, 5) }
  function EntityIdOf(f: Field): Option<Option<Text>> { SetsString(f, 1) }
  function VersionOf(f: Field): Option<Option<Text>> { SetsString(f, 1) }

  function HeaderTimestampOf(f: Field): Option<nat> {
    if IsVarint(f, 3) then Some(f.payload.value) else None
  }

  function TripUpdateOf(f: Field): Option<Option<TripUpdate>> {
    if IsBytes(f, 3) && DecodeTripUpdate(f.payload.body).Ok? then Some(Some(DecodeTripUpdate(f.payload.body).value)) else None
  }

  function HeaderOf(f: Field): Option<Header> {
    if IsBytes(f, 1) && DecodeHeader(f.payload.body).Ok? then Some(DecodeHeader(f.payload.body).value) else None
  }

  // ---------------------------------------------------------------------------
  // StopTimeEvent
  // ---------------------------------------------------------------------------

  /** The time decoder never rejects a field, so it fails exactly when a varint runs off the end. */
  lemma DecodeTimeFailsOnlyOnTruncation(s: Bytes)
    ensures DecodeTime(s).Err? <==> EndsTruncated(Scan(s))
  {
    TotalHandlerFailsOnlyOnTruncation(ApplyTime, DefaultTime, Scan(s));
  }

  /** An encoded StopTimeEvent decodes to the last field-2 varint, or `None` when there is none. */
  lemma TimeIsLastVarint(fs: seq<Field>)
    requires AllWellFormed(fs)
    ensures DecodeTime(EncodeFields(fs)) == Ok(LastPicked(fs, TimeOf, DefaultTime))
  {
    DecodeEncodedFields(ApplyTime, DefaultTime, fs);
    PrependKeepsEnd(fs, End);
    TotalHandlerFailsOnlyOnTruncation(ApplyTime, DefaultTime, Prepend(fs, End));
    LastValueWins(ApplyTime, (t: Time) => t, TimeOf, DefaultTime, fs);
  }

  lemma TimeSkipsUnknownField(fs: seq<Field>, u: Field, rest: Bytes)
    requires AllWellFormed(fs) && WellFormedPayload(u.payload)
    requires !IsVarint(u, 2)
    ensures DecodeTime(EncodeFields(fs) + EncodeField(u) + rest) == DecodeTime(EncodeFields(fs) + rest)
  {
    assert Ignores(ApplyTime, u);
    UnknownFieldIsSkipped(ApplyTime, DefaultTime, fs, u, rest);
  }

  // ---------------------------------------------------------------------------
  // StopTimeUpdate
  // ---------------------------------------------------------------------------

  /** The last stop_sequence and the last stop_id win; `None` when absent. */
  lemma StopTimeUpdateLastScalars(fs: seq<Field>)
    requires AllWellFormed(fs)
    ensures var r := DecodeStopTimeUpdate(EncodeFields(fs));
            r.Ok? ==>
              && r.value.stopSequence == LastPicked(fs, StopSequenceOf, None)
              && r.value.stopId == LastPicked(fs, StopIdOf, None)
  {
    DecodeEncodedFields(ApplyStopTimeUpdate, DefaultStopTimeUpdate, fs);
    LastValueWins(ApplyStopTimeUpdate, (u: StopTimeUpdate) => u.stopSequence, StopSequenceOf, DefaultStopTimeUpdate, fs);
    LastValueWins(ApplyStopTimeUpdate, (u: StopTimeUpdate) => u.stopId, StopIdOf, DefaultStopTimeUpdate, fs);
  }

  /** The last arrival and the last departure block win, each decoded; `None` when absent. */
  lemma StopTimeUpdateLastTimes(fs: seq<Field>)
    requires AllWellFormed(fs)
    ensures var r := DecodeStopTimeUpdate(EncodeFields(fs));
            r.Ok? ==>
              && r.value.arrivalTime == LastPicked(fs, ArrivalOf, None)
              && r.value.departureTime == LastPicked(fs, DepartureOf, None)
  {
    DecodeEncodedFields(ApplyStopTimeUpdate, DefaultStopTimeUpdate, fs);
    LastValueWins(ApplyStopTimeUpdate, (u: StopTimeUpdate) => u.arrivalTime, ArrivalOf, DefaultStopTimeUpdate, fs);
    LastValueWins(ApplyStopTimeUpdate, (u: StopTimeUpdate) => u.departureTime, DepartureOf, DefaultStopTimeUpdate, fs);
  }

  predicate KnownStopTimeUpdateField(f: Field) {
    IsVarint(f, 1) || IsBytes(f, 2) || IsBytes(f, 3) || IsBytes(f, 4)
  }

  lemma StopTimeUpdateSkipsUnknownField(fs: seq<Field>, u: Field, rest: Bytes)
    requires AllWellFormed(fs) && WellFormedPayload(u.payload)
    requires !KnownStopTimeUpdateField(u)
    ensures DecodeStopTimeUpdate(EncodeFields(fs) + EncodeField(u) + rest) == DecodeStopTimeUpdate(EncodeFields(fs) + rest)
  {
    assert Ignores(ApplyStopTimeUpdate, u);
    UnknownFieldIsSkipped(ApplyStopTimeUpdate, DefaultStopTimeUpdate, fs, u, rest);
  }

  /** A stop-time update with none of its four fields decodes to all-`None`. */
  lemma StopTimeUpdateDefaults(fs: seq<Field>)
    requires AllWellFormed(fs)
    requires forall k | 0 <= k < |fs| :: !KnownStopTimeUpdateField(fs[k])
    ensures DecodeStopTimeUpdate(EncodeFields(fs)) == Ok(StopTimeUpdate(None, None, None, None))
  {
    DecodeEncodedFields(ApplyStopTimeUpdate, DefaultStopTimeUpdate, fs);
    forall k | 0 <= k < |fs| ensures Ignores(ApplyStopTimeUpdate, fs[k]) {
      assert !KnownStopTimeUpdateField(fs[k]);
    }
    OnlyIgnoredFields(ApplyStopTimeUpdate, DefaultStopTimeUpdate, fs);
  }

  /**
   * A stop_id that is not well-formed UTF-8 makes the whole stop-time update
   * fail; with nothing failing before it, the error is the string error.
   */
  lemma MalformedStopIdFails(fs: seq<Field>, raw: Bytes)
    requires AllWellFormed(fs)
    requires !WellFormed(raw)
    ensures DecodeStopTimeUpdate(EncodeFields(fs + [Field(4, LengthPrefixed(raw))])).Err?
    ensures DecodeStopTimeUpdate(EncodeFields(fs)).Ok? ==>
              DecodeStopTimeUpdate(EncodeFields(fs + [Field(4, LengthPrefixed(raw))])) == Err(MalformedString)
  {
    var bad := Field(4, LengthPrefixed(raw));
    assert AllWellFormed(fs + [bad]) by {
      forall k | 0 <= k < |fs + [bad]| ensures WellFormedPayload((fs + [bad])[k].payload) {
        if k < |fs| { assert (fs + [bad])[k] == fs[k]; }
      }
    }
    DecodeEncodedFields(ApplyStopTimeUpdate, DefaultStopTimeUpdate, fs + [bad]);
    DecodeEncodedFields(ApplyStopTimeUpdate, DefaultStopTimeUpdate, fs);
    FoldSnoc(ApplyStopTimeUpdate, DefaultStopTimeUpdate, fs, bad);
  }

  // ---------------------------------------------------------------------------
  // TripDescriptor
  // ---------------------------------------------------------------------------

  lemma TripDescriptorLastValues(fs: seq<Field>)
    requires AllWellFormed(fs)
    ensures var r := DecodeTripDescriptor(EncodeFields(fs));
            r.Ok? ==> r.value.tripId == LastPicked(fs, TripIdOf, None) && r.value.routeId == LastPicked(fs, RouteIdOf, None)
  {
    DecodeEncodedFields(ApplyTripDescriptor, DefaultTripDescriptor, fs);
    LastValueWins(ApplyTripDescriptor, (d: TripDescriptor) => d.tripId, TripIdOf, DefaultTripDescriptor, fs);
    LastValueWins(ApplyTripDescriptor, (d: TripDescriptor) => d.routeId, RouteIdOf, DefaultTripDescriptor, fs);
  }

  lemma TripDescriptorSkipsUnknownField(fs: seq<Field>, u: Field, rest: Bytes)
    requires AllWellFormed(fs) && WellFormedPayload(u.payload)
    requires !IsBytes(u, 1) && !IsBytes(u, 5)
    ensures DecodeTripDescriptor(EncodeFields(fs) + EncodeField(u) + rest) == DecodeTripDescriptor(EncodeFields(fs) + rest)
  {
    assert Ignores(ApplyTripDescriptor, u);
    UnknownFieldIsSkipped(ApplyTripDescriptor, DefaultTripDescriptor, fs, u, rest);
  }

  /** A descriptor with neither a trip id nor a route id decodes to `None` for both. */
  lemma TripDescriptorDefaults(fs: seq<Field>)
    requires AllWellFormed(fs)
    requires forall k | 0 <= k < |fs| :: !IsBytes(fs[k], 1) && !IsBytes(fs[k], 5)
    ensures DecodeTripDescriptor(EncodeFields(fs)) == Ok(TripDescriptor(None, None))
  {
    DecodeEncodedFields(ApplyTripDescriptor, DefaultTripDescriptor, fs);
    forall k | 0 <= k < |fs| ensures Ignores(ApplyTripDescriptor, fs[k]) {
      assert !IsBytes(fs[k], 1) && !IsBytes(fs[k], 5);
    }
    OnlyIgnoredFields(ApplyTripDescriptor, DefaultTripDescriptor, fs);
  }

  // ---------------------------------------------------------------------------
  // TripUpdate
  // ---------------------------------------------------------------------------

  /** The stop-time updates of a trip block: one per field-2 entry, in wire order. */
  lemma StopTimeUpdatesInWireOrder(fs: seq<Field>)
    requires AllWellFormed(fs)
    ensures var r := DecodeTripUpdate(EncodeFields(fs));
            r.Ok? ==> AllDecodeTo(Bodies(fs, 2), r.value.stopTimeUpdates, DecodeStopTimeUpdate)
  {
    DecodeEncodedFields(ApplyTripUpdate, DefaultTripUpdate, fs);
    RepeatedFieldInOrder(ApplyTripUpdate, (t: TripUpdate) => t.stopTimeUpdates, 2, DecodeStopTimeUpdate, DefaultTripUpdate, fs);
  }

  lemma TripUpdateSkipsUnknownField(fs: seq<Field>, u: Field, rest: Bytes)
    requires AllWellFormed(fs) && WellFormedPayload(u.payload)
    requires !IsBytes(u, 1) && !IsBytes(u, 2)
    ensures DecodeTripUpdate(EncodeFields(fs) + EncodeField(u) + rest) == DecodeTripUpdate(EncodeFields(fs) + rest)
  {
    assert Ignores(ApplyTripUpdate, u);
    UnknownFieldIsSkipped(ApplyTripUpdate, DefaultTripUpdate, fs, u, rest);
  }

  /** A trip block with no descriptor and no stop-time updates decodes to `None` and an empty list. */
  lemma TripUpdateDefaults(fs: seq<Field>)
    requires AllWellFormed(fs)
    requires forall k | 0 <= k < |fs| :: !IsBytes(fs[k], 1) && !IsBytes(fs[k], 2)
    ensures DecodeTripUpdate(EncodeFields(fs)) == Ok(TripUpdate(None, []))
  {
    DecodeEncodedFields(ApplyTripUpdate, DefaultTripUpdate, fs);
    forall k | 0 <= k < |fs| ensures Ignores(ApplyTripUpdate, fs[k]) {
      assert !IsBytes(fs[k], 1) && !IsBytes(fs[k], 2);
    }
    OnlyIgnoredFields(ApplyTripUpdate, DefaultTripUpdate, fs);
  }

  // ---------------------------------------------------------------------------
  // FeedEntity
  // ---------------------------------------------------------------------------

  lemma EntityLastValues(fs: seq<Field>)
    requires AllWellFormed(fs)
    ensures var r := DecodeEntity(EncodeFields(fs));
            r.Ok? ==> r.value.id == LastPicked(fs, EntityIdOf, None) && r.value.tripUpdate == LastPicked(fs, TripUpdateOf, None)
  {
    DecodeEncodedFields(ApplyEntity, DefaultEntity, fs);
    LastValueWins(ApplyEntity, (e: Entity) => e.id, EntityIdOf, DefaultEntity, fs);
    LastValueWins(ApplyEntity, (e: Entity) => e.tripUpdate, TripUpdateOf, DefaultEntity, fs);
  }

  /** Unknown fields, and the vehicle/extension block 4, leave an entity unchanged. */
  lemma EntitySkipsUnknownField(fs: seq<Field>, u: Field, rest: Bytes)
    requires AllWellFormed(fs) && WellFormedPayload(u.payload)
    requires !IsBytes(u, 1) && !IsBytes(u, 3)
    ensures DecodeEntity(EncodeFields(fs) + EncodeField(u) + rest) == DecodeEntity(EncodeFields(fs) + rest)
  {
    assert Ignores(ApplyEntity, u);
    UnknownFieldIsSkipped(ApplyEntity, DefaultEntity, fs, u, rest);
  }

  /** An entity with neither an id nor a trip update decodes to `None` for both. */
  lemma EntityDefaults(fs: seq<Field>)
    requires AllWellFormed(fs)
    requires forall k | 0 <= k < |fs| :: !IsBytes(fs[k], 1) && !IsBytes(fs[k], 3)
    ensures DecodeEntity(EncodeFields(fs)) == Ok(Entity(None, None))
  {
    DecodeEncodedFields(ApplyEntity, DefaultEntity, fs);
    forall k | 0 <= k < |fs| ensures Ignores(ApplyEntity, fs[k]) {
      assert !IsBytes(fs[k], 1) && !IsBytes(fs[k], 3);
    }
    OnlyIgnoredFields(ApplyEntity, DefaultEntity, fs);
  }

  // ---------------------------------------------------------------------------
  // FeedHeader
  // ---------------------------------------------------------------------------

  /** The header keeps the last version string and the last timestamp, 0 when there is none. */
  lemma HeaderLastValues(fs: seq<Field>)
    requires AllWellFormed(fs)
    ensures var r := DecodeHeader(EncodeFields(fs));
            r.Ok? ==> r.value.version == LastPicked(fs, VersionOf, None) && r.value.timestamp == LastPicked(fs, HeaderTimestampOf, 0)
  {
    DecodeEncodedFields(ApplyHeader, DefaultHeader, fs);
    LastValueWins(ApplyHeader, (h: Header) => h.version, VersionOf, DefaultHeader, fs);
    LastValueWins(ApplyHeader, (h: Header) => h.timestamp, HeaderTimestampOf, DefaultHeader, fs);
  }

  /** Unknown fields, and the NYCT extension block 1001, leave the header unchanged. */
  lemma HeaderSkipsUnknownField(fs: seq<Field>, u: Field, rest: Bytes)
    requires AllWellFormed(fs) && WellFormedPayload(u.payload)
    requires !IsBytes(u, 1) && !IsVarint(u, 3)
    ensures DecodeHeader(EncodeFields(fs) + EncodeField(u) + rest) == DecodeHeader(EncodeFields(fs) + rest)
  {
    assert Ignores(ApplyHeader, u);
    UnknownFieldIsSkipped(ApplyHeader, DefaultHeader, fs, u, rest);
  }

  /** A header with neither a version nor a timestamp decodes to `None` and 0. */
  lemma HeaderDefaults(fs: seq<Field>)
    requires AllWellFormed(fs)
    requires forall k | 0 <= k < |fs| :: !IsBytes(fs[k], 1) && !IsVarint(fs[k], 3)
    ensures DecodeHeader(EncodeFields(fs)) == Ok(Header(None, 0))
  {
    DecodeEncodedFields(ApplyHeader, DefaultHeader, fs);
    forall k | 0 <= k < |fs| ensures Ignores(ApplyHeader, fs[k]) {
      assert !IsBytes(fs[k], 1) && !IsVarint(fs[k], 3);
    }
    OnlyIgnoredFields(ApplyHeader, DefaultHeader, fs);
  }

  // ---------------------------------------------------------------------------
  // FeedMessage
  // ---------------------------------------------------------------------------

  /** One entity per top-level field-2 entry, in the order of the feed. */
  lemma EntitiesInWireOrder(fs: seq<Field>)
    requires AllWellFormed(fs)
    ensures var r := DecodeFeedMessage(EncodeFields(fs));
            r.Ok? ==> AllDecodeTo(Bodies(fs, 2), r.value.entities, DecodeEntity)
  {
    DecodeEncodedFields(ApplyFeedMessage, DefaultFeedMessage, fs);
    RepeatedFieldInOrder(ApplyFeedMessage, (m: FeedMessage) => m.entities, 2, DecodeEntity, DefaultFeedMessage, fs);
  }

  /** The last header block wins; without one the header is `None` and 0. */
  lemma FeedHeaderLastWins(fs: seq<Field>)
    requires AllWellFormed(fs)
    ensures var r := DecodeFeedMessage(EncodeFields(fs));
            r.Ok? ==> r.value.header == LastPicked(fs, HeaderOf, Header(None, 0))
  {
    DecodeEncodedFields(ApplyFeedMessage, DefaultFeedMessage, fs);
    LastValueWins(ApplyFeedMessage, (m: FeedMessage) => m.header, HeaderOf, DefaultFeedMessage, fs);
  }

  lemma FeedMessageSkipsUnknownField(fs: seq<Field>, u: Field, rest: Bytes)
    requires AllWellFormed(fs) && WellFormedPayload(u.payload)
    requires !IsBytes(u, 1) && !IsBytes(u, 2)
    ensures DecodeFeedMessage(EncodeFields(fs) + EncodeField(u) + rest) == DecodeFeedMessage(EncodeFields(fs) + rest)
  {
    assert Ignores(ApplyFeedMessage, u);
    UnknownFieldIsSkipped(ApplyFeedMessage, DefaultFeedMessage, fs, u, rest);
  }

  /** A feed with no header and no entity blocks decodes to the default header and no entities. */
  lemma FeedMessageDefaults(fs: seq<Field>)
    requires AllWellFormed(fs)
    requires forall k | 0 <= k < |fs| :: !IsBytes(fs[k], 1) && !IsBytes(fs[k], 2)
    ensures DecodeFeedMessage(EncodeFields(fs)) == Ok(FeedMessage(Header(None, 0), []))
  {
    DecodeEncodedFields(ApplyFeedMessage, DefaultFeedMessage, fs);
    forall k | 0 <= k < |fs| ensures Ignores(ApplyFeedMessage, fs[k]) {
      assert !IsBytes(fs[k], 1) && !IsBytes(fs[k], 2);
    }
    OnlyIgnoredFields(ApplyFeedMessage, DefaultFeedMessage, fs);
  }
}

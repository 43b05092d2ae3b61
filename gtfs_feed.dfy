/**
 * The seven GTFS-realtime message shapes the feed decoder reads, and what
 * each decodes to: a record with `Option` fields for the scalars it keeps
 * and a list for each repeated sub-message. Strings stay as their UTF-8
 * bytes once they have been checked to be well-formed.
 *
 * Each decoder is `Fold(ApplyX, DefaultX, Scan(s))`: the record starts at
 * the source's defaults and each field the loop meets is handled by
 * `ApplyX`, which returns the record unchanged for a field it skips.
 */
module GtfsFeed {
  import opened Wrappers
  import opened Wire
  import opened Utf8
  import opened FieldStream

  type Text = Bytes

  /** StopTimeEvent: only `time` (field 2) is kept; `None` when absent. */
  type Time = Option<nat>

  datatype StopTimeUpdate = StopTimeUpdate(stopId: Option<Text>, stopSequence: Option<nat>, arrivalTime: Time, departureTime: Time)

  datatype TripDescriptor = TripDescriptor(tripId: Option<Text>, routeId: Option<Text>)

  datatype TripUpdate = TripUpdate(trip: Option<TripDescriptor>, stopTimeUpdates: seq<StopTimeUpdate>)

  /** A feed entity. The `vehicle` entry of the source is always `None`, so it is not kept. */
  datatype Entity = Entity(id: Option<Text>, tripUpdate: Option<TripUpdate>)

  datatype Header = Header(version: Option<Text>, timestamp: nat)

  datatype FeedMessage = FeedMessage(header: Header, entities: seq<Entity>)

  /** Field `number` carrying a varint. */
  predicate IsVarint(f: Field, number: nat) {
    f.number == number && f.payload.VarintValue?
  }

  /** Field `number` carrying a length-delimited body. */
  predicate IsBytes(f: Field, number: nat) {
    f.number == number && f.payload.LengthPrefixed?
  }

  // ---------------------------------------------------------------------------
  // Defaults
  // ---------------------------------------------------------------------------

  const DefaultTime: Time := None
  const DefaultStopTimeUpdate := StopTimeUpdate(None, None, None, None)
  const DefaultTripDescriptor := TripDescriptor(None, None)
  const DefaultTripUpdate := TripUpdate(None, [])
  const DefaultEntity := Entity(None, None)
  const DefaultHeader := Header(None, 0)
  const DefaultFeedMessage := FeedMessage(DefaultHeader, [])

  // ---------------------------------------------------------------------------
  // Per-field handlers and decoders, innermost message first
  // ---------------------------------------------------------------------------

  /** `parse_mta_timestamp`: field 2 as a varint is the time; everything else is skipped. */
  function ApplyTime(t: Time, f: Field): Result<Time, DecodeError> {
    if IsVarint(f, 2) then Ok(Some(f.payload.value)) else Ok(t)
  }

  function DecodeTime(s: Bytes): Result<Time, DecodeError> {
    Fold(ApplyTime, DefaultTime, Scan(s))
  }

  /**
   * `parse_mta_stop_time_update`: stop_sequence (1, varint), stop_id (4,
   * string), arrival (2) and departure (3), each a nested StopTimeEvent whose
   * decoded time, possibly `None`, replaces the previous one.
   */
  function ApplyStopTimeUpdate(u: StopTimeUpdate, f: Field): Result<StopTimeUpdate, DecodeError> {
    if IsVarint(f, 1) then
      Ok(u.(stopSequence := Some(f.payload.value)))
    else if IsBytes(f, 4) then
      var id :- DecodeUtf8(f.payload.body);
      Ok(u.(stopId := Some(id)))
    else if IsBytes(f, 2) then
      var t :- DecodeTime(f.payload.body);
      Ok(u.(arrivalTime := t))
    else if IsBytes(f, 3) then
      var t :- DecodeTime(f.payload.body);
      Ok(u.(departureTime := t))
    else
      Ok(u)
  }

  function DecodeStopTimeUpdate(s: Bytes): Result<StopTimeUpdate, DecodeError> {
    Fold(ApplyStopTimeUpdate, DefaultStopTimeUpdate, Scan(s))
  }

  /** `parse_mta_trip_descriptor`: trip_id (1) and route_id (5), both strings. */
  function ApplyTripDescriptor(d: TripDescriptor, f: Field): Result<TripDescriptor, DecodeError> {
    if IsBytes(f, 1) then
      var id :- DecodeUtf8(f.payload.body);
      Ok(d.(tripId := Some(id)))
    else if IsBytes(f, 5) then
      var id :- DecodeUtf8(f.payload.body);
      Ok(d.(routeId := Some(id)))
    else
      Ok(d)
  }

  function DecodeTripDescriptor(s: Bytes): Result<TripDescriptor, DecodeError> {
    Fold(ApplyTripDescriptor, DefaultTripDescriptor, Scan(s))
  }

  /** `parse_mta_trip_block`: the trip descriptor (1) and the repeated stop_time_update (2). */
  function ApplyTripUpdate(t: TripUpdate, f: Field): Result<TripUpdate, DecodeError> {
    if IsBytes(f, 1) then
      var d :- DecodeTripDescriptor(f.payload.body);
      Ok(t.(trip := Some(d)))
    else if IsBytes(f, 2) then
      var u :- DecodeStopTimeUpdate(f.payload.body);
      Ok(t.(stopTimeUpdates := t.stopTimeUpdates + [u]))
    else
      Ok(t)
  }

  function DecodeTripUpdate(s: Bytes): Result<TripUpdate, DecodeError> {
    Fold(ApplyTripUpdate, DefaultTripUpdate, Scan(s))
  }

  /** `parse_mta_entity`: id (1, string) and trip_update (3); field 4 is consumed unparsed. */
  function ApplyEntity(e: Entity, f: Field): Result<Entity, DecodeError> {
    if IsBytes(f, 1) then
      var id :- DecodeUtf8(f.payload.body);
      Ok(e.(id := Some(id)))
    else if IsBytes(f, 3) then
      var t :- DecodeTripUpdate(f.payload.body);
      Ok(e.(tripUpdate := Some(t)))
    else
      Ok(e)
  }

  function DecodeEntity(s: Bytes): Result<Entity, DecodeError> {
    Fold(ApplyEntity, DefaultEntity, Scan(s))
  }

  /** `parse_mta_header`: version (1, string) and timestamp (3, varint); the extension 1001 is consumed unparsed. */
  function ApplyHeader(h: Header, f: Field): Result<Header, DecodeError> {
    if IsBytes(f, 1) then
      var v :- DecodeUtf8(f.payload.body);
      Ok(h.(version := Some(v)))
    else if IsVarint(f, 3) then
      Ok(h.(timestamp := f.payload.value))
    else
      Ok(h)
  }

  function DecodeHeader(s: Bytes): Result<Header, DecodeError> {
    Fold(ApplyHeader, DefaultHeader, Scan(s))
  }

  /** `parse_feed_message`: the header (1), which replaces the default, and the repeated entity (2). */
  function ApplyFeedMessage(m: FeedMessage, f: Field): Result<FeedMessage, DecodeError> {
    if IsBytes(f, 1) then
      var h :- DecodeHeader(f.payload.body);
      Ok(m.(header := h))
    else if IsBytes(f, 2) then
      var e :- DecodeEntity(f.payload.body);
      Ok(m.(entities := m.entities + [e]))
    else
      Ok(m)
  }

  function DecodeFeedMessage(s: Bytes): Result<FeedMessage, DecodeError> {
    Fold(ApplyFeedMessage, DefaultFeedMessage, Scan(s))
  }
}

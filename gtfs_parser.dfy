/**
 * The message loops of lib/partial_protobuf_feed.py as the source writes
 * them: a cursor `idx` that starts at 0, a record filled in field by field
 * and lists grown by appending, until `idx` reaches or passes the end of the
 * buffer. Each loop is proved to compute its decoder in GtfsFeed; the loop
 * invariant says that finishing the remaining fields from the current record
 * gives the decoder's result. An exception raised by a nested call (a
 * varint that runs off the end, a string that is not UTF-8) ends the whole
 * parse, as `:-` does here.
 */
module GtfsParser {
  import opened Wrappers
  import opened Wire
  import opened Utf8
  import opened FieldStream
  import opened GtfsFeed

  /** `parse_mta_timestamp`. */
  method ParseTimestamp(subdata: Bytes) returns (r: Result<Time, DecodeError>)
    ensures r == DecodeTime(subdata)
  {
    var idx := 0;
    var end := |subdata|;
    var epochTime: Time := None;
    ScanFromStart(subdata);
    while idx < end
      invariant Fold(ApplyTime, epochTime, ScanFrom(subdata, idx)) == DecodeTime(subdata)
      decreases end - idx
    {
      FoldStep(ApplyTime, epochTime, subdata, idx);
      ghost var start := idx;
      var key :- ParseKey(subdata, idx);
      var fieldNum, wireType := key.0, key.1;
      idx := key.2;
      if fieldNum == 2 && wireType == VARINT {
        VarintFieldAt(subdata, start);
        var vi :- ParseVarint(subdata, idx);
        epochTime, idx := Some(vi.0), vi.1;
      } else {
        FieldAtSplit(subdata, start);
        idx :- SkipField(subdata, wireType, idx);
      }
    }
    ScanFromEnd(subdata, idx);
    return Ok(epochTime);
  }

  /** `parse_mta_stop_time_update`. */
  method ParseStopTimeUpdate(subdata: Bytes) returns (r: Result<StopTimeUpdate, DecodeError>)
    ensures r == DecodeStopTimeUpdate(subdata)
  {
    var idx := 0;
    var end := |subdata|;
    var stu := StopTimeUpdate(None, None, None, None);
    ScanFromStart(subdata);
    while idx < end
      invariant Fold(ApplyStopTimeUpdate, stu, ScanFrom(subdata, idx)) == DecodeStopTimeUpdate(subdata)
      decreases end - idx
    {
      FoldStep(ApplyStopTimeUpdate, stu, subdata, idx);
      ghost var start := idx;
      var key :- ParseKey(subdata, idx);
      var fieldNum, wireType := key.0, key.1;
      idx := key.2;
      if fieldNum == 1 && wireType == VARINT {
        VarintFieldAt(subdata, start);
        var vi :- ParseVarint(subdata, idx);
        stu, idx := stu.(stopSequence := Some(vi.0)), vi.1;
      } else if fieldNum == 4 && wireType == LENGTH_DELIMITED {
        BytesFieldAt(subdata, start);
        var ld :- ParseLengthDelimited(subdata, idx);
        idx := ld.1;
        var stopId :- DecodeUtf8(ld.0);
        stu := stu.(stopId := Some(stopId));
      } else if fieldNum == 2 && wireType == LENGTH_DELIMITED {
        BytesFieldAt(subdata, start);
        var ld :- ParseLengthDelimited(subdata, idx);
        idx := ld.1;
        var arrival :- ParseTimestamp(ld.0);
        stu := stu.(arrivalTime := arrival);
      } else if fieldNum == 3 && wireType == LENGTH_DELIMITED {
        BytesFieldAt(subdata, start);
        var ld :- ParseLengthDelimited(subdata, idx);
        idx := ld.1;
        var departure :- ParseTimestamp(ld.0);
        stu := stu.(departureTime := departure);
      } else {
        FieldAtSplit(subdata, start);
        idx :- SkipField(subdata, wireType, idx);
      }
    }
    ScanFromEnd(subdata, idx);
    return Ok(stu);
  }

  /** `parse_mta_trip_descriptor`. */
  method ParseTripDescriptor(subdata: Bytes) returns (r: Result<TripDescriptor, DecodeError>)
    ensures r == DecodeTripDescriptor(subdata)
  {
    var idx := 0;
    var end := |subdata|;
    var desc := TripDescriptor(None, None);
    ScanFromStart(subdata);
    while idx < end
      invariant Fold(ApplyTripDescriptor, desc, ScanFrom(subdata, idx)) == DecodeTripDescriptor(subdata)
      decreases end - idx
    {
      FoldStep(ApplyTripDescriptor, desc, subdata, idx);
      ghost var start := idx;
      var key :- ParseKey(subdata, idx);
      var fieldNum, wireType := key.0, key.1;
      idx := key.2;
      if fieldNum == 1 && wireType == LENGTH_DELIMITED {
        BytesFieldAt(subdata, start);
        var ld :- ParseLengthDelimited(subdata, idx);
        idx := ld.1;
        var tripId :- DecodeUtf8(ld.0);
        desc := desc.(tripId := Some(tripId));
      } else if fieldNum == 5 && wireType == LENGTH_DELIMITED {
        BytesFieldAt(subdata, start);
        var ld :- ParseLengthDelimited(subdata, idx);
        idx := ld.1;
        var routeId :- DecodeUtf8(ld.0);
        desc := desc.(routeId := Some(routeId));
      } else {
        FieldAtSplit(subdata, start);
        idx :- SkipField(subdata, wireType, idx);
      }
    }
    ScanFromEnd(subdata, idx);
    return Ok(desc);
  }

  /** `parse_mta_trip_block`. */
  method ParseTripBlock(subdata: Bytes) returns (r: Result<TripUpdate, DecodeError>)
    ensures r == DecodeTripUpdate(subdata)
  {
    var idx := 0;
    var end := |subdata|;
    var tripUpdate := TripUpdate(None, []);
    ScanFromStart(subdata);
    while idx < end
      invariant Fold(ApplyTripUpdate, tripUpdate, ScanFrom(subdata, idx)) == DecodeTripUpdate(subdata)
      decreases end - idx
    {
      FoldStep(ApplyTripUpdate, tripUpdate, subdata, idx);
      ghost var start := idx;
      var key :- ParseKey(subdata, idx);
      var fieldNum, wireType := key.0, key.1;
      idx := key.2;
      if fieldNum == 1 && wireType == LENGTH_DELIMITED {
        BytesFieldAt(subdata, start);
        var ld :- ParseLengthDelimited(subdata, idx);
        idx := ld.1;
        var trip :- ParseTripDescriptor(ld.0);
        tripUpdate := tripUpdate.(trip := Some(trip));
      } else if fieldNum == 2 && wireType == LENGTH_DELIMITED {
        BytesFieldAt(subdata, start);
        var ld :- ParseLengthDelimited(subdata, idx);
        idx := ld.1;
        var stu :- ParseStopTimeUpdate(ld.0);
        tripUpdate := tripUpdate.(stopTimeUpdates := tripUpdate.stopTimeUpdates + [stu]);
      } else {
        FieldAtSplit(subdata, start);
        idx :- SkipField(subdata, wireType, idx);
      }
    }
    ScanFromEnd(subdata, idx);
    return Ok(tripUpdate);
  }

  /** `parse_mta_entity`. */
  method ParseEntity(subdata: Bytes) returns (r: Result<Entity, DecodeError>)
    ensures r == DecodeEntity(subdata)
  {
    var idx := 0;
    var end := |subdata|;
    var entity := Entity(None, None);
    ScanFromStart(subdata);
    while idx < end
      invariant Fold(ApplyEntity, entity, ScanFrom(subdata, idx)) == DecodeEntity(subdata)
      decreases end - idx
    {
      FoldStep(ApplyEntity, entity, subdata, idx);
      ghost var start := idx;
      var key :- ParseKey(subdata, idx);
      var fieldNum, wireType := key.0, key.1;
      idx := key.2;
      if fieldNum == 1 && wireType == LENGTH_DELIMITED {
        BytesFieldAt(subdata, start);
        var ld :- ParseLengthDelimited(subdata, idx);
        idx := ld.1;
        var id :- DecodeUtf8(ld.0);
        entity := entity.(id := Some(id));
      } else if fieldNum == 3 && wireType == LENGTH_DELIMITED {
        BytesFieldAt(subdata, start);
        var ld :- ParseLengthDelimited(subdata, idx);
        idx := ld.1;
        var tripUpdate :- ParseTripBlock(ld.0);
        entity := entity.(tripUpdate := Some(tripUpdate));
      } else if fieldNum == 4 && wireType == LENGTH_DELIMITED {
        BytesFieldAt(subdata, start);
        // The vehicle/extension block is consumed and not parsed.
        var ld :- ParseLengthDelimited(subdata, idx);
        idx := ld.1;
      } else {
        FieldAtSplit(subdata, start);
        idx :- SkipField(subdata, wireType, idx);
      }
    }
    ScanFromEnd(subdata, idx);
    return Ok(entity);
  }

  /** `parse_mta_header`. */
  method ParseHeader(subdata: Bytes) returns (r: Result<Header, DecodeError>)
    ensures r == DecodeHeader(subdata)
  {
    var idx := 0;
    var end := |subdata|;
    var header := Header(None, 0);
    ScanFromStart(subdata);
    while idx < end
      invariant Fold(ApplyHeader, header, ScanFrom(subdata, idx)) == DecodeHeader(subdata)
      decreases end - idx
    {
      FoldStep(ApplyHeader, header, subdata, idx);
      ghost var start := idx;
      var key :- ParseKey(subdata, idx);
      var fieldNum, wireType := key.0, key.1;
      idx := key.2;
      if fieldNum == 1 && wireType == LENGTH_DELIMITED {
        BytesFieldAt(subdata, start);
        var ld :- ParseLengthDelimited(subdata, idx);
        idx := ld.1;
        var version :- DecodeUtf8(ld.0);
        header := header.(version := Some(version));
      } else if fieldNum == 3 && wireType == VARINT {
        VarintFieldAt(subdata, start);
        var vi :- ParseVarint(subdata, idx);
        header, idx := header.(timestamp := vi.0), vi.1;
      } else if fieldNum == 1001 && wireType == LENGTH_DELIMITED {
        BytesFieldAt(subdata, start);
        // The NYCT extension block is consumed and not parsed.
        var ld :- ParseLengthDelimited(subdata, idx);
        idx := ld.1;
      } else {
        FieldAtSplit(subdata, start);
        idx :- SkipField(subdata, wireType, idx);
      }
    }
    ScanFromEnd(subdata, idx);
    return Ok(header);
  }

  /** `parse_feed_message`: the entry point for a whole feed. */
  method ParseFeedMessage(data: Bytes) returns (r: Result<FeedMessage, DecodeError>)
    ensures r == DecodeFeedMessage(data)
  {
    var idx := 0;
    var end := |data|;
    var feed := FeedMessage(Header(None, 0), []);
    ScanFromStart(data);
    while idx < end
      invariant Fold(ApplyFeedMessage, feed, ScanFrom(data, idx)) == DecodeFeedMessage(data)
      decreases end - idx
    {
      FoldStep(ApplyFeedMessage, feed, data, idx);
      ghost var start := idx;
      var key :- ParseKey(data, idx);
      var fieldNum, wireType := key.0, key.1;
      idx := key.2;
      if fieldNum == 1 && wireType == LENGTH_DELIMITED {
        BytesFieldAt(data, start);
        var ld :- ParseLengthDelimited(data, idx);
        idx := ld.1;
        var header :- ParseHeader(ld.0);
        feed := feed.(header := header);
      } else if fieldNum == 2 && wireType == LENGTH_DELIMITED {
        BytesFieldAt(data, start);
        var ld :- ParseLengthDelimited(data, idx);
        idx := ld.1;
        var entity :- ParseEntity(ld.0);
        feed := feed.(entities := feed.entities + [entity]);
      } else {
        FieldAtSplit(data, start);
        idx :- SkipField(data, wireType, idx);
      }
    }
    ScanFromEnd(data, idx);
    return Ok(feed);
  }
}

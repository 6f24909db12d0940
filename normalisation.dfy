/** The normaliser: `extract_ids` turns an accepted event into the 1-indexed
    keys and timestamp text the database expects, and the first lines of
    `upload_to_database` pick the table the row goes to. */
module Normalisation {
  import opened Events
  import Clock
  import Decimal
  import opened Validation

  /** `extract_ids`'s tuple `(rating_id, request_id, exhibition_id, event_at)`. */
  datatype Ids = Ids(ratingId: int, requestId: Option<int>, exhibitionId: int, eventAt: string)

  /** `int(site)` of a known site id is its position in `EXHIBITION_SITE_IDS`. */
  lemma SitePosition(s: string)
    requires s in ExhibitionSiteIds
    ensures Decimal.AllDigits(s) && Decimal.Value(s) < 6 && ExhibitionSiteIds[Decimal.Value(s)] == s
  {
    KnownSites(s);
    assert s == [s[0]];
    assert Decimal.Value(s) == Decimal.Value([]) * 10 + Decimal.DigitValue(s[0]);
  }

  /** `extract_ids`, defined on the events `validate_info` accepted (the only
      ones the source passes to it). Each id is the field's position in its
      constant list, shifted by one into the 1-indexed storage keys, except
      that `val = -1` becomes the rating id 0; the time reads back as the
      event's wall-clock time to the second. */
  function ExtractIds(e: Event, parse: Parser): (ids: Ids)
    requires ValidateInfo(Some(e), parse) == Accepted
    ensures 1 <= ids.exhibitionId <= 6 && Get(e, "site") == Str(ExhibitionSiteIds[ids.exhibitionId - 1])
    ensures 0 <= ids.ratingId <= 5 && Get(e, "val") == Int(RatingValues[ids.ratingId])
    ensures ids.requestId.Some? <==> Get(e, "type") != Null
    ensures ids.requestId.Some? ==>
              1 <= ids.requestId.value <= 2 && Get(e, "type") == Int(RequestTypes[ids.requestId.value - 1])
    ensures Get(e, "at").Str? && parse(Get(e, "at").s).Some?
            && Clock.ParseStamp(ids.eventAt) == Some(Clock.Truncate(parse(Get(e, "at").s).value))
  {
    ValidateInfoSpec(Some(e), parse);
    SitePosition(Get(e, "site").s);
    var eventAt := Clock.FormatTime(parse(Get(e, "at").s).value);
    var exhibitionId := Decimal.Value(Get(e, "site").s) + 1;
    var ratingId := Get(e, "val").i + 1;
    var requestId := if Get(e, "type").Null? then None else Some(Get(e, "type").i + 1);
    Ids(ratingId, requestId, exhibitionId, eventAt)
  }

  /** The row written to `rating_interaction` or `request_interaction`. */
  datatype Record =
    | RatingRecord(exhibitionId: int, ratingId: int, recordedAt: string)
    | RequestRecord(exhibitionId: int, requestId: int, recordedAt: string)
  {
    /** `event_type`, which names the table and its id column. */
    function EventType(): string {
      if RequestRecord? then "request" else "rating"
    }

    /** `type_id`, the value stored in that id column. */
    function TypeId(): int {
      if RequestRecord? then requestId else ratingId
    }
  }

  /** The branch at the top of `upload_to_database`: a request row when there
      is a request id, a rating row otherwise; the other id is not stored. */
  function Classify(ids: Ids): (r: Record)
    ensures r.RequestRecord? <==> ids.requestId.Some?
    ensures r.EventType() == (if ids.requestId.Some? then "request" else "rating")
    ensures r.TypeId() == (if ids.requestId.Some? then ids.requestId.value else ids.ratingId)
    ensures r.exhibitionId == ids.exhibitionId && r.recordedAt == ids.eventAt
  {
    match ids.requestId
    case Some(requestId) => RequestRecord(ids.exhibitionId, requestId, ids.eventAt)
    case None => RatingRecord(ids.exhibitionId, ids.ratingId, ids.eventAt)
  }

  /** An accepted event normalised and classified, as the consumer loop does. */
  function Normalize(e: Event, parse: Parser): (r: Record)
    requires ValidateInfo(Some(e), parse) == Accepted
    ensures r.RequestRecord? <==> Get(e, "val") == Int(RequestSentinel)
    ensures r.exhibitionId == ExtractIds(e, parse).exhibitionId && r.recordedAt == ExtractIds(e, parse).eventAt
  {
    ValidateInfoSpec(Some(e), parse);
    Classify(ExtractIds(e, parse))
  }

  /** What a stored row says about the event it came from. The row is a
      request row exactly when `val` was the sentinel -1; a rating row never
      stores the rating id 0 and comes from an event without `type`; in a
      request row the rating id that was dropped is always 0. Every key
      indexes back into its constant list, so the row determines `site`,
      `val` and `type`, and its timestamp reads back as the event's. */
  lemma NormalizeSpec(e: Event, parse: Parser)
    requires ValidateInfo(Some(e), parse) == Accepted
    ensures var r := Normalize(e, parse);
            && (r.RequestRecord? <==> Get(e, "val") == Int(RequestSentinel))
            && 1 <= r.exhibitionId <= 6 && Get(e, "site") == Str(ExhibitionSiteIds[r.exhibitionId - 1])
            && (r.RatingRecord? ==>
                  1 <= r.ratingId <= 5 && Get(e, "val") == Int(RatingValues[r.ratingId])
                  && Get(e, "type") == Null)
            && (r.RequestRecord? ==>
                  r.requestId in {1, 2} && Get(e, "type") == Int(RequestTypes[r.requestId - 1])
                  && ExtractIds(e, parse).ratingId == 0)
            && Get(e, "at").Str? && parse(Get(e, "at").s).Some?
            && Clock.ParseStamp(r.recordedAt) == Some(Clock.Truncate(parse(Get(e, "at").s).value))
  {
    ValidateInfoSpec(Some(e), parse);
    var ids := ExtractIds(e, parse);
    if ids.requestId.None? {
      assert Get(e, "val") != Int(RequestSentinel);
      assert ids.ratingId != 0;
    }
  }

  /** The row an accepted event is stored as depends only on its `site`,
      `val` and `type` and on its timestamp to the second. */
  lemma NormalizeDependsOnFields(e1: Event, e2: Event, parse: Parser)
    requires ValidateInfo(Some(e1), parse) == Accepted && ValidateInfo(Some(e2), parse) == Accepted
    requires Get(e1, "site") == Get(e2, "site") && Get(e1, "val") == Get(e2, "val")
    requires Get(e1, "type") == Get(e2, "type")
    requires Get(e1, "at").Str? && parse(Get(e1, "at").s).Some?
    requires Get(e2, "at").Str? && parse(Get(e2, "at").s).Some?
    requires Clock.Truncate(parse(Get(e1, "at").s).value) == Clock.Truncate(parse(Get(e2, "at").s).value)
    ensures Normalize(e1, parse) == Normalize(e2, parse)
  {
    NormalizeSpec(e1, parse);
    NormalizeSpec(e2, parse);
    var r1, r2 := Normalize(e1, parse), Normalize(e2, parse);
    Clock.ParseStampFormats(r1.recordedAt);
    Clock.ParseStampFormats(r2.recordedAt);
    assert r1.recordedAt == r2.recordedAt;
    assert r1.exhibitionId == r2.exhibitionId by {
      Decimal.DigitsOfValue(Get(e1, "site").s);
      SitePosition(Get(e1, "site").s);
    }
  }

  /** Conversely, the row determines the event's `site`, `val` and `type`
      and its timestamp to the second. */
  lemma NormalizeDeterminesFields(e1: Event, e2: Event, parse: Parser)
    requires ValidateInfo(Some(e1), parse) == Accepted && ValidateInfo(Some(e2), parse) == Accepted
    requires Normalize(e1, parse) == Normalize(e2, parse)
    ensures Get(e1, "site") == Get(e2, "site") && Get(e1, "val") == Get(e2, "val")
    ensures Get(e1, "type") == Get(e2, "type")
    ensures Get(e1, "at").Str? && parse(Get(e1, "at").s).Some?
    ensures Get(e2, "at").Str? && parse(Get(e2, "at").s).Some?
    ensures Clock.Truncate(parse(Get(e1, "at").s).value) == Clock.Truncate(parse(Get(e2, "at").s).value)
  {
    NormalizeSpec(e1, parse);
    NormalizeSpec(e2, parse);
  }

  /** Two accepted events give the same row exactly when they agree on
      `site`, `val` and `type` and on their timestamps to the second: the
      row loses only the microseconds and the UTC offset. */
  lemma NormalizeInjective(e1: Event, e2: Event, parse: Parser)
    requires ValidateInfo(Some(e1), parse) == Accepted && ValidateInfo(Some(e2), parse) == Accepted
    ensures Get(e1, "at").Str? && parse(Get(e1, "at").s).Some?
    ensures Get(e2, "at").Str? && parse(Get(e2, "at").s).Some?
    ensures Normalize(e1, parse) == Normalize(e2, parse)
        <==> && Get(e1, "site") == Get(e2, "site") && Get(e1, "val") == Get(e2, "val")
             && Get(e1, "type") == Get(e2, "type")
             && Clock.Truncate(parse(Get(e1, "at").s).value) == Clock.Truncate(parse(Get(e2, "at").s).value)
  {
    ValidateInfoSpec(Some(e1), parse);
    ValidateInfoSpec(Some(e2), parse);
    if Normalize(e1, parse) == Normalize(e2, parse) {
      NormalizeDeterminesFields(e1, e2, parse);
    } else if Get(e1, "site") == Get(e2, "site") && Get(e1, "val") == Get(e2, "val")
              && Get(e1, "type") == Get(e2, "type")
              && Clock.Truncate(parse(Get(e1, "at").s).value) == Clock.Truncate(parse(Get(e2, "at").s).value) {
      NormalizeDependsOnFields(e1, e2, parse);
      assert false;
    }
  }
}

/** The event validators: four field checks, each accepting its field or
    rejecting it for one named reason, and `ValidateInfo`, which runs them in a
    fixed order and reports the first rejection. A rejection reason stands for
    the error line the source logs. */
module Validation {
  import opened Events
  import Clock
  import Decimal

  /** The fourteen error messages, one per way a field can be rejected. */
  datatype Reason =
    // time (`at`)
    | NoRecordedTime | NotValidTime | OutsideOpeningHours
    // exhibition (`site`)
    | NoSiteId | SiteNotString | SiteNotValidId | SiteIdUnknown
    // rating (`val`)
    | NoValueId | ValueNotInteger | ValueOutOfBounds
    // request (`type`)
    | NoTypeId | TypeWithoutSentinel | TypeNotInteger | TypeNotKnown

  /** Which validator owns a reason: 0 time, 1 exhibition, 2 rating, 3 request. */
  function Stage(r: Reason): nat {
    match r
    case NoRecordedTime | NotValidTime | OutsideOpeningHours => 0
    case NoSiteId | SiteNotString | SiteNotValidId | SiteIdUnknown => 1
    case NoValueId | ValueNotInteger | ValueOutOfBounds => 2
    case NoTypeId | TypeWithoutSentinel | TypeNotInteger | TypeNotKnown => 3
  }

  /** One validator's outcome: `True`, or `False` after logging one reason. */
  datatype Check = Pass | Reject(reason: Reason)

  /** `validate_info`'s outcome. `Empty` is the `None`/`{}` input, refused
      without any log line. */
  datatype Verdict = Accepted | Empty | Rejected(reason: Reason)

  /** `datetime.fromisoformat` is a library call; the model takes it as a
      parameter of this type. */
  type Parser = string -> Option<Clock.ParsedDateTime>

  /** `EXHIBITION_SITE_IDS`, `RATING_VALUES = range(-1, 5)` and `REQUEST_TYPES`. */
  const ExhibitionSiteIds: seq<string> := ["0", "1", "2", "3", "4", "5"]
  const RatingValues: seq<int> := [-1, 0, 1, 2, 3, 4]
  const RequestTypes: seq<int> := [0, 1]

  /** The `val` that marks an event as a request rather than a rating. */
  const RequestSentinel := -1

  /** `validate_time`: `at` must be present, parse, and fall inside the
      opening window. A present `at` that is not a string is rejected as not
      a valid time (see `ValidateTimeAsWritten` for what the source does). */
  function ValidateTime(e: Event, parse: Parser): (c: Check)
    ensures c.Reject? ==> Stage(c.reason) == 0
  {
    match Get(e, "at")
    case Null => Reject(NoRecordedTime)
    case Str(s) =>
      (match parse(s)
       case None => Reject(NotValidTime)
       case Some(dt) => if Clock.InOpeningHours(Clock.TimeOf(dt)) then Pass else Reject(OutsideOpeningHours))
    case _ => Reject(NotValidTime)
  }

  /** `validate_exhibition`: present, then a string, then all digits, then a
      known site id. */
  function ValidateExhibition(e: Event): (c: Check)
    ensures c.Reject? ==> Stage(c.reason) == 1
  {
    var site := Get(e, "site");
    if site.Null? then Reject(NoSiteId)
    else if !site.Str? then Reject(SiteNotString)
    else if !Decimal.IsDigits(site.s) then Reject(SiteNotValidId)
    else if site.s !in ExhibitionSiteIds then Reject(SiteIdUnknown)
    else Pass
  }

  /** `validate_rating`: present, then an integer, then within [-1, 4]. */
  function ValidateRating(e: Event): (c: Check)
    ensures c.Reject? ==> Stage(c.reason) == 2
  {
    var value := Get(e, "val");
    if value.Null? then Reject(NoValueId)
    else if !value.Int? then Reject(ValueNotInteger)
    else if value.i < -1 || value.i > 4 then Reject(ValueOutOfBounds)
    else Pass
  }

  /** `validate_request`: the cross-field rule between `type` and `val`. */
  function ValidateRequest(e: Event): (c: Check)
    ensures c.Reject? ==> Stage(c.reason) == 3
  {
    var eventType := Get(e, "type");
    var eventValue := Get(e, "val");
    if eventType.Null? && eventValue == Int(RequestSentinel) then Reject(NoTypeId)
    else if eventType.Null? then Pass
    else if eventValue != Int(RequestSentinel) then Reject(TypeWithoutSentinel)
    else if !eventType.Int? then Reject(TypeNotInteger)
    else if eventType.i !in RequestTypes then Reject(TypeNotKnown)
    else Pass
  }

  /** `validate_info`: refuses a missing or empty event, then runs the four
      validators in order and stops at the first rejection. */
  function ValidateInfo(event: Option<Event>, parse: Parser): (v: Verdict)
    ensures v == Empty <==> event.None? || event.value == map[]
  {
    if event.None? || event.value == map[] then Empty
    else
      var e := event.value;
      if ValidateTime(e, parse).Reject? then Rejected(ValidateTime(e, parse).reason)
      else if ValidateExhibition(e).Reject? then Rejected(ValidateExhibition(e).reason)
      else if ValidateRating(e).Reject? then Rejected(ValidateRating(e).reason)
      else if ValidateRequest(e).Reject? then Rejected(ValidateRequest(e).reason)
      else Accepted
  }

  /** The four validators' outcomes, in the order `validate_info` runs them. */
  function Checks(e: Event, parse: Parser): seq<Check> {
    [ValidateTime(e, parse), ValidateExhibition(e), ValidateRating(e), ValidateRequest(e)]
  }

  // ---------------------------------------------------------------------
  // What a valid event is, stated field by field without the check order.

  /** `at` is a string that parses to a time of day inside the opening window. */
  predicate TimeOk(e: Event, parse: Parser) {
    Get(e, "at").Str? && parse(Get(e, "at").s).Some?
    && Clock.InOpeningHours(Clock.TimeOf(parse(Get(e, "at").s).value))
  }

  /** `site` is one of the strings "0" to "5". */
  predicate SiteOk(e: Event) {
    Get(e, "site").Str? && |Get(e, "site").s| == 1 && '0' <= Get(e, "site").s[0] <= '5'
  }

  /** `val` is an integer in `range(-1, 5)`. */
  predicate RatingOk(e: Event) {
    Get(e, "val").Int? && Get(e, "val").i in RatingValues
  }

  /** `type` is present exactly when `val` is -1, and then it is 0 or 1. */
  predicate RequestOk(e: Event) {
    && (!Get(e, "type").Null? <==> Get(e, "val") == Int(-1))
    && (!Get(e, "type").Null? ==> Get(e, "type").Int? && Get(e, "type").i in {0, 1})
  }

  predicate IsValidEvent(e: Event, parse: Parser) {
    TimeOk(e, parse) && SiteOk(e) && RatingOk(e) && RequestOk(e)
  }

  // ---------------------------------------------------------------------
  // Each validator against its field's rule, reason by reason.

  lemma TimeCheckSpec(e: Event, parse: Parser)
    ensures ValidateTime(e, parse) == Pass <==> TimeOk(e, parse)
    ensures ValidateTime(e, parse) == Reject(NoRecordedTime) <==> Get(e, "at") == Null
    ensures ValidateTime(e, parse) == Reject(NotValidTime)
        <==> !Get(e, "at").Null? && (!Get(e, "at").Str? || parse(Get(e, "at").s).None?)
    ensures ValidateTime(e, parse) == Reject(OutsideOpeningHours)
        <==> Get(e, "at").Str? && parse(Get(e, "at").s).Some?
             && !Clock.InOpeningHours(Clock.TimeOf(parse(Get(e, "at").s).value))
  {
  }

  /** The known ids are exactly the one-character strings "0" to "5". */
  lemma KnownSites(s: string)
    ensures s in ExhibitionSiteIds <==> |s| == 1 && '0' <= s[0] <= '5'
  {
    if |s| == 1 && '0' <= s[0] <= '5' {
      assert s == [s[0]];
      assert s[0] in {'0', '1', '2', '3', '4', '5'};
    }
  }

  lemma ExhibitionCheckSpec(e: Event)
    ensures ValidateExhibition(e) == Pass <==> SiteOk(e)
    ensures ValidateExhibition(e) == Reject(NoSiteId) <==> Get(e, "site") == Null
    ensures ValidateExhibition(e) == Reject(SiteNotString)
        <==> !Get(e, "site").Null? && !Get(e, "site").Str?
    ensures ValidateExhibition(e) == Reject(SiteNotValidId)
        <==> Get(e, "site").Str? && !Decimal.IsDigits(Get(e, "site").s)
    ensures ValidateExhibition(e) == Reject(SiteIdUnknown)
        <==> Get(e, "site").Str? && Decimal.IsDigits(Get(e, "site").s)
             && !(|Get(e, "site").s| == 1 && Get(e, "site").s[0] <= '5')
  {
    var site := Get(e, "site");
    if site.Str? {
      KnownSites(site.s);
    }
  }

  /** The literal bounds `-1 <= value <= 4` are membership in `RATING_VALUES`. */
  lemma RatingCheckSpec(e: Event)
    ensures ValidateRating(e) == Pass <==> RatingOk(e)
    ensures ValidateRating(e) == Reject(NoValueId) <==> Get(e, "val") == Null
    ensures ValidateRating(e) == Reject(ValueNotInteger) <==> !Get(e, "val").Null? && !Get(e, "val").Int?
    ensures ValidateRating(e) == Reject(ValueOutOfBounds) <==> Get(e, "val").Int? && Get(e, "val").i !in RatingValues
  {
    var value := Get(e, "val");
    if value.Int? && -1 <= value.i <= 4 {
      assert value.i == RatingValues[value.i + 1];
    }
  }

  lemma RequestCheckSpec(e: Event)
    ensures ValidateRequest(e) == Pass <==> RequestOk(e)
    ensures ValidateRequest(e) == Reject(NoTypeId) <==> Get(e, "type") == Null && Get(e, "val") == Int(-1)
    ensures ValidateRequest(e) == Reject(TypeWithoutSentinel)
        <==> !Get(e, "type").Null? && Get(e, "val") != Int(-1)
    ensures ValidateRequest(e) == Reject(TypeNotInteger)
        <==> !Get(e, "type").Null? && Get(e, "val") == Int(-1) && !Get(e, "type").Int?
    ensures ValidateRequest(e) == Reject(TypeNotKnown)
        <==> Get(e, "val") == Int(-1) && Get(e, "type").Int? && Get(e, "type").i !in {0, 1}
  {
  }

  // ---------------------------------------------------------------------
  // The composite validator.

  /** `validate_info` accepts exactly the non-empty events that satisfy all
      four field rules, and refuses `None` and `{}` without a reason. */
  lemma ValidateInfoSpec(event: Option<Event>, parse: Parser)
    ensures ValidateInfo(event, parse) == Empty <==> event.None? || event.value == map[]
    ensures ValidateInfo(event, parse) == Accepted <==> event.Some? && IsValidEvent(event.value, parse)
  {
    if event.Some? {
      var e := event.value;
      TimeCheckSpec(e, parse);
      ExhibitionCheckSpec(e);
      RatingCheckSpec(e);
      RequestCheckSpec(e);
      if IsValidEvent(e, parse) {
        assert "site" in e;
      }
    }
  }

  /** Only the first failing validator is heard from: the reported reason is
      the one its own validator gave, and every validator that runs before it
      passed. */
  lemma FirstFailureWins(e: Event, parse: Parser, r: Reason)
    requires ValidateInfo(Some(e), parse) == Rejected(r)
    ensures Stage(r) < 4 && Checks(e, parse)[Stage(r)] == Reject(r)
    ensures forall k :: 0 <= k < Stage(r) ==> Checks(e, parse)[k] == Pass
  {
  }

  /** An event is accepted exactly when no validator rejects it. */
  lemma AcceptedIffAllPass(e: Event, parse: Parser)
    requires e != map[]
    ensures ValidateInfo(Some(e), parse) == Accepted <==> forall k :: 0 <= k < 4 ==> Checks(e, parse)[k] == Pass
  {
    var cs := Checks(e, parse);
    if ValidateInfo(Some(e), parse) != Accepted {
      var r := ValidateInfo(Some(e), parse).reason;
      FirstFailureWins(e, parse, r);
      assert cs[Stage(r)] != Pass;
    }
  }

  /** A key set to `null` is treated as missing, so `{..., "type": None}` and
      `{...}` get the same verdict unless dropping the key leaves `{}`
      (which is refused as empty, while `{"type": None}` is not). */
  lemma NullSameAsAbsent(e: Event, k: string, parse: Parser)
    requires e - {k} != map[]
    ensures ValidateInfo(Some(e[k := Null]), parse) == ValidateInfo(Some(e - {k}), parse)
  {
    var withNull, without := e[k := Null], e - {k};
    NullReadsAsAbsent(e, k, "at");
    NullReadsAsAbsent(e, k, "site");
    NullReadsAsAbsent(e, k, "val");
    NullReadsAsAbsent(e, k, "type");
    assert withNull != map[] by { assert k in withNull; }
    assert Checks(withNull, parse) == Checks(without, parse);
  }

  // ---------------------------------------------------------------------
  // The time check as the source writes it.

  /** A Python call either returns a value or raises. */
  datatype Step<T> = Returned(value: T) | RaisedTypeError

  /** `validate_time` as written: `datetime.fromisoformat` raises `TypeError`
      on a value that is not a string, and only `ValueError` is caught, so a
      numeric (or any other non-string, non-null) `at` escapes the validator
      instead of being logged as not a valid time. */
  function ValidateTimeAsWritten(e: Event, parse: Parser): (r: Step<Check>)
    ensures r.RaisedTypeError? <==> !Get(e, "at").Null? && !Get(e, "at").Str?
    ensures r.Returned? ==> r.value == ValidateTime(e, parse)
  {
    match Get(e, "at")
    case Null => Returned(Reject(NoRecordedTime))
    case Str(s) =>
      (match parse(s)
       case None => Returned(Reject(NotValidTime))
       case Some(dt) =>
         if Clock.InOpeningHours(Clock.TimeOf(dt)) then Returned(Pass) else Returned(Reject(OutsideOpeningHours)))
    case _ => RaisedTypeError
  }

  /** `validate_info` as written: the `TypeError` from the time check is not
      caught here either, so it leaves `validate_info`. When the time check
      returns, the rest runs exactly as in the corrected `ValidateInfo`. */
  function ValidateInfoAsWritten(event: Option<Event>, parse: Parser): (r: Step<Verdict>)
    ensures r.RaisedTypeError? <==>
              event.Some? && event.value != map[] && !Get(event.value, "at").Null? && !Get(event.value, "at").Str?
    ensures r.Returned? ==> r.value == ValidateInfo(event, parse)
  {
    if event.None? || event.value == map[] then Returned(Empty)
    else
      match ValidateTimeAsWritten(event.value, parse)
      case RaisedTypeError => RaisedTypeError
      case Returned(Reject(reason)) => Returned(Rejected(reason))
      case Returned(Pass) => Returned(ValidateInfo(event, parse))
  }

  /** `{"at": 1741712400, "site": "1", "val": 1}` makes the source raise out of
      `validate_info`, where
      the corrected check rejects it as not a valid time. */
  lemma NumericTimeRaises(parse: Parser)
    ensures var e := map["at" := Int(1741712400), "site" := Str("1"), "val" := Int(1)];
            ValidateTimeAsWritten(e, parse) == RaisedTypeError
            && ValidateInfoAsWritten(Some(e), parse) == RaisedTypeError
            && ValidateTime(e, parse) == Reject(NotValidTime)
            && ValidateInfo(Some(e), parse) == Rejected(NotValidTime)
  {
    var e := map["at" := Int(1741712400), "site" := Str("1"), "val" := Int(1)];
    assert Get(e, "at") == Int(1741712400);
  }
}

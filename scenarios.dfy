/** The cases of `test_validate_info`, with the parser fixed to the one
    timestamp those cases use, and the rows the valid ones produce. */
module Scenarios {
  import opened Events
  import Clock
  import Decimal
  import opened Validation
  import opened Normalisation

  const TestAt := "2025-03-11T17:00:00.000000+00:00"

  /** `fromisoformat` on the one string the cases use: 17:00 on 11 March 2025,
      UTC offset zero. Any other string is taken as unparsable. */
  function TestParse(s: string): Option<Clock.ParsedDateTime> {
    if s == TestAt then Some(Clock.DateTime(2025, 3, 11, 17, 0, 0, 0, Some(0))) else None
  }

  function RatingEvent(site: string, val: int): Event {
    map["at" := Str(TestAt), "site" := Str(site), "val" := Int(val)]
  }

  /** Every case that carries `at` is within opening hours. */
  lemma TestTimePasses(e: Event)
    requires Get(e, "at") == Str(TestAt)
    ensures ValidateTime(e, TestParse) == Pass
  {
    var dt := TestParse(TestAt).value;
    assert Clock.TimeOf(dt) == Clock.TimeOfDay(17, 0, 0, 0);
    Clock.OpeningWindowIsClosed(Clock.TimeOf(dt));
  }

  /** The invalid cases with a bad `site`, each with the reason logged. */
  lemma RejectedSiteCases()
    ensures ValidateInfo(Some(RatingEvent("6", 1)), TestParse) == Rejected(SiteIdUnknown)
    ensures ValidateInfo(Some(RatingEvent("abcd", 1)), TestParse) == Rejected(SiteNotValidId)
    ensures ValidateInfo(Some(RatingEvent("-1", 1)), TestParse) == Rejected(SiteNotValidId)
  {
    TestTimePasses(RatingEvent("6", 1));
    TestTimePasses(RatingEvent("abcd", 1));
    TestTimePasses(RatingEvent("-1", 1));
    assert !Decimal.IsDigits("abcd") by { assert !Decimal.IsDigit("abcd"[0]); }
    assert !Decimal.IsDigits("-1") by { assert !Decimal.IsDigit("-1"[0]); }
    assert Decimal.IsDigits("6");
    KnownSites("6");
  }

  /** The other invalid cases: a request without a type (missing or `None`),
      no `at`, and a rating of 5. */
  lemma RejectedOtherCases()
    ensures ValidateInfo(Some(RatingEvent("1", -1)), TestParse) == Rejected(NoTypeId)
    ensures ValidateInfo(Some(RatingEvent("1", -1)["type" := Null]), TestParse) == Rejected(NoTypeId)
    ensures ValidateInfo(Some(map["site" := Str("1"), "val" := Int(1)]), TestParse) == Rejected(NoRecordedTime)
    ensures ValidateInfo(Some(RatingEvent("1", 5)), TestParse) == Rejected(ValueOutOfBounds)
  {
    TestTimePasses(RatingEvent("1", -1));
    TestTimePasses(RatingEvent("1", -1)["type" := Null]);
    TestTimePasses(RatingEvent("1", 5));
    assert Decimal.IsDigits("1");
    var noTime := map["site" := Str("1"), "val" := Int(1)];
    assert "at" !in noTime && "site" in noTime;
    assert ValidateTime(noTime, TestParse) == Reject(NoRecordedTime);
  }

  /** 17:00:00 on 11 March 2025, the test time at second precision. */
  const TestStamp := Clock.Stamp(2025, 3, 11, 17, 0, 0)

  /** Positions in the constant lists, read back as numbers. */
  lemma ListPositions(k: nat)
    requires k < 6
    ensures Decimal.AllDigits(ExhibitionSiteIds[k]) && Decimal.Value(ExhibitionSiteIds[k]) == k
    ensures RatingValues[k] == k - 1
    ensures k < 2 ==> RequestTypes[k] == k
  {
    SitePosition(ExhibitionSiteIds[k]);
    assert ExhibitionSiteIds[k] == [('0' as int + k) as char];
  }

  /** An accepted test event is stored with the exhibition id, the rating
      or request id, and the timestamp that its fields index. */
  lemma TestRow(e: Event, site: nat, val: int, requestType: Option<int>)
    requires ValidateInfo(Some(e), TestParse) == Accepted
    requires site < 6 && Get(e, "site") == Str(ExhibitionSiteIds[site])
    requires Get(e, "at") == Str(TestAt) && -1 <= val <= 4 && Get(e, "val") == Int(val)
    requires requestType.None? ==> Get(e, "type") == Null
    requires requestType.Some? ==> requestType.value in {0, 1} && Get(e, "type") == Int(requestType.value)
    ensures var r := Normalize(e, TestParse);
            && Clock.ParseStamp(r.recordedAt) == Some(TestStamp)
            && r.exhibitionId == site + 1
            && (requestType.None? ==> r.RatingRecord? && r.ratingId == val + 1)
            && (requestType.Some? ==> r.RequestRecord? && r.requestId == requestType.value + 1)
  {
    NormalizeSpec(e, TestParse);
    var r := Normalize(e, TestParse);
    ListPositions(site);
    ListPositions(r.exhibitionId - 1);
    assert r.exhibitionId == site + 1;
    if r.RatingRecord? {
      ListPositions(r.ratingId);
    } else {
      ListPositions(r.requestId - 1);
    }
  }

  /** The valid cases and the rows they are stored as. */
  lemma RatingZeroCase()
    ensures ValidateInfo(Some(RatingEvent("0", 0)), TestParse) == Accepted
    ensures var r := Normalize(RatingEvent("0", 0), TestParse);
            && r.RatingRecord? && r.ratingId == 1
            && r.exhibitionId == 1
            && Clock.ParseStamp(r.recordedAt) == Some(TestStamp)
  {
    var e := RatingEvent("0", 0);
    TestTimePasses(e);
    assert Decimal.IsDigits("0");
    assert ValidateInfo(Some(e), TestParse) == Accepted;
    TestRow(e, 0, 0, None);
  }

  lemma RequestCase()
    ensures ValidateInfo(Some(RatingEvent("1", -1)["type" := Int(0)]), TestParse) == Accepted
    ensures var r := Normalize(RatingEvent("1", -1)["type" := Int(0)], TestParse);
            && r.RequestRecord? && r.requestId == 1
            && r.exhibitionId == 2
            && Clock.ParseStamp(r.recordedAt) == Some(TestStamp)
  {
    var e := RatingEvent("1", -1)["type" := Int(0)];
    TestTimePasses(e);
    assert Decimal.IsDigits("1");
    assert ValidateInfo(Some(e), TestParse) == Accepted;
    TestRow(e, 1, -1, Some(0));
  }

  lemma RatingFourCase()
    ensures ValidateInfo(Some(RatingEvent("5", 4)), TestParse) == Accepted
    ensures var r := Normalize(RatingEvent("5", 4), TestParse);
            && r.RatingRecord? && r.ratingId == 5
            && r.exhibitionId == 6
            && Clock.ParseStamp(r.recordedAt) == Some(TestStamp)
  {
    var e := RatingEvent("5", 4);
    TestTimePasses(e);
    assert Decimal.IsDigits("5");
    assert ValidateInfo(Some(e), TestParse) == Accepted;
    TestRow(e, 5, 4, None);
  }
}

/**
  The query sent to the booking endpoint (`bookingSession`,
  `occasionBundleQuery`, `req` and `newRequest` in main.go). Fields the
  source never sets keep Go's zero value: 0, false, a nil slice or a nil
  pointer.
 */
module Request {
  import opened Base

  /** A Go value of static type `any`. The program never builds one, so
      nothing about it is known. */
  type Any(==)

  datatype BookingSession = BookingSession(
    socialSecurityNumber: string,
    licenceId: Int64,
    bookingModeId: Int64,
    ignoreDebt: bool,
    ignoreBookingHindrance: bool,
    examinationTypeId: Int64,
    excludeExaminationCategories: Slice<Any>,
    rescheduleTypeId: Int64,
    paymentIsActive: bool,
    paymentReference: Option<string>,
    paymentUrl: Option<string>,
    searchedMonths: Int64
  )

  datatype OccasionBundleQuery = OccasionBundleQuery(
    startDate: string,
    searchedMonths: Int64,
    locationId: Int64,
    nearbyLocationIds: Slice<Int64>,
    languageId: Int64,
    vehicleTypeId: Int64,
    tachographTypeId: Int64,
    occasionChoiceId: Int64,
    examinationTypeId: Int64
  )

  datatype Req = Req(bookingSession: BookingSession, occasionBundleQuery: OccasionBundleQuery)

  /** Driving licence category the program searches for. */
  const LicenceId: Int64 := 4
  /** The start of the searched period: the Unix epoch. */
  const StartDate: string := "1970-01-01T00:00:00.000Z"
  const LanguageId: Int64 := 13
  const VehicleTypeId: Int64 := 1
  const TachographTypeId: Int64 := 1
  const OccasionChoiceId: Int64 := 1
  const QueryExaminationTypeId: Int64 := 10

  /** The session fields fixed by the program: the documented constants, and
      Go's zero value everywhere else. */
  predicate FixedSession(s: BookingSession) {
    && s.licenceId == LicenceId
    && s.bookingModeId == 0
    && !s.ignoreDebt
    && s.ignoreBookingHindrance
    && s.examinationTypeId == 0
    && s.excludeExaminationCategories == Nil
    && s.rescheduleTypeId == 0
    && !s.paymentIsActive
    && s.paymentReference == None
    && s.paymentUrl == None
    && s.searchedMonths == 0
  }

  /** The query fields fixed by the program. */
  predicate FixedQuery(q: OccasionBundleQuery) {
    && q.startDate == StartDate
    && q.searchedMonths == 0
    && q.languageId == LanguageId
    && q.vehicleTypeId == VehicleTypeId
    && q.tachographTypeId == TachographTypeId
    && q.occasionChoiceId == OccasionChoiceId
    && q.examinationTypeId == QueryExaminationTypeId
  }

  /** A request every one of whose fixed fields has its documented value. */
  predicate Canonical(r: Req) {
    FixedSession(r.bookingSession) && FixedQuery(r.occasionBundleQuery)
  }

  /** `newRequest(ssn, location, nearby)`. */
  function NewRequest(ssn: string, location: Int64, nearby: Slice<Int64>): (r: Req)
    ensures Canonical(r)
    ensures r.bookingSession.socialSecurityNumber == ssn
    ensures r.occasionBundleQuery.locationId == location
    ensures r.occasionBundleQuery.nearbyLocationIds == nearby
  {
    Req(
      BookingSession(
        socialSecurityNumber := ssn,
        licenceId := LicenceId,
        bookingModeId := 0,
        ignoreDebt := false,
        ignoreBookingHindrance := true,
        examinationTypeId := 0,
        excludeExaminationCategories := Nil,
        rescheduleTypeId := 0,
        paymentIsActive := false,
        paymentReference := None,
        paymentUrl := None,
        searchedMonths := 0),
      OccasionBundleQuery(
        startDate := StartDate,
        searchedMonths := 0,
        locationId := location,
        nearbyLocationIds := nearby,
        languageId := LanguageId,
        vehicleTypeId := VehicleTypeId,
        tachographTypeId := TachographTypeId,
        occasionChoiceId := OccasionChoiceId,
        examinationTypeId := QueryExaminationTypeId))
  }

  /** The three inputs a request carries back. */
  function Inputs(r: Req): (string, Int64, Slice<Int64>) {
    (r.bookingSession.socialSecurityNumber, r.occasionBundleQuery.locationId,
     r.occasionBundleQuery.nearbyLocationIds)
  }

  /** `newRequest` loses nothing: the inputs can be read back off the request. */
  lemma InputsOfNewRequest(ssn: string, location: Int64, nearby: Slice<Int64>)
    ensures Inputs(NewRequest(ssn, location, nearby)) == (ssn, location, nearby)
  {}

  /** The requests `newRequest` builds are exactly the canonical ones: each
      canonical request is rebuilt from its own inputs, and nothing else is. */
  lemma NewRequestRange(r: Req)
    ensures Canonical(r) <==> r == NewRequest(Inputs(r).0, Inputs(r).1, Inputs(r).2)
  {}

  /** Different inputs give different requests. */
  lemma NewRequestInjective(ssn1: string, location1: Int64, nearby1: Slice<Int64>,
                            ssn2: string, location2: Int64, nearby2: Slice<Int64>)
    requires NewRequest(ssn1, location1, nearby1) == NewRequest(ssn2, location2, nearby2)
    ensures ssn1 == ssn2 && location1 == location2 && nearby1 == nearby2
  {
    InputsOfNewRequest(ssn1, location1, nearby1);
    InputsOfNewRequest(ssn2, location2, nearby2);
  }
}

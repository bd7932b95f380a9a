/**
  The polling loop (`loop` in main.go) without its clock: each round reads
  the identifier file, refuses an empty list, picks one identifier, sends
  one query and, when the reply's message is not empty, posts it to the
  notification relay. The file's contents, the random draw and the
  endpoint's reply are inputs of a round.
 */
module Driver {
  import opened Base
  import opened Strings
  import opened Identifiers
  import opened Request
  import opened Response
  import opened Locations

  /** The relay the message is posted to is this prefix followed by the topic. */
  const RelayBase: string := "https://ntfy.sh/"

  /** Why the loop ends. Every error is fatal. */
  datatype Fatal =
    | ReadFailed(reason: string)
    | NoIdentifiers
    | CheckFailed(reason: string)
  {
    /** The error text `main` prints after "Error: ". */
    function Text(): string {
      match this
      case ReadFailed(reason) => reason
      case NoIdentifiers => "No personnnumer present. Please add at least one."
      case CheckFailed(reason) => reason
    }
  }

  /** The text/plain post to the relay. */
  datatype Notification = Notification(url: string, body: string)

  /** What one successful round did. */
  datatype Checked = Checked(ssn: string, request: Req, message: string, notification: Option<Notification>)

  /** The endpoint, as seen by a round: the query goes in, the decoded reply
      or the transport/decoding error comes out. */
  type Endpoint = Req -> Result<Res, string>

  /** `ssns[rand.Intn(len(ssns))]`, with the random draw as input.
      `rand.Intn` panics on 0, which the loop's guard rules out. */
  function Pick(ssns: seq<string>, draw: nat): (ssn: string)
    requires |ssns| > 0
    ensures ssn in ssns
    ensures draw < |ssns| ==> ssn == ssns[draw]
  {
    ssns[draw % |ssns|]
  }

  /** One iteration of `loop`, up to its sleeps and status line. */
  function Step(file: Result<string, string>, draw: nat, topic: string,
                location: Int64, nearby: Slice<Int64>, api: Endpoint): (r: Result<Checked, Fatal>)
    ensures file.Failure? ==> r == Failure(ReadFailed(ReadErrorPrefix + file.error))
    ensures file.Success? && Parse(file.value) == [] ==> r == Failure(NoIdentifiers)
    ensures r.Success? ==> && file.Success?
                           && r.value.ssn in Parse(file.value)
                           && r.value.request == NewRequest(r.value.ssn, location, nearby)
                           && api(r.value.request).Success?
                           && r.value.message == Message(api(r.value.request).value)
    ensures r.Success? ==> (r.value.notification.Some? <==> |r.value.message| > 0)
    ensures r.Success? && r.value.notification.Some? ==>
              r.value.notification.value == Notification(RelayBase + topic, r.value.message)
  {
    match Read(file)
    case Failure(e) => Failure(ReadFailed(e))
    case Success(ssns) =>
      if |ssns| == 0 then Failure(NoIdentifiers)
      else
        var ssn := Pick(ssns, draw);
        var request := NewRequest(ssn, location, nearby);
        match api(request)
        case Failure(e) => Failure(CheckFailed(e))
        case Success(res) =>
          var msg := Message(res);
          var notification := if |msg| > 0 then Some(Notification(RelayBase + topic, msg)) else None;
          Success(Checked(ssn, request, msg, notification))
  }

  /** A file of nothing but line breaks stops the loop before any query:
      the outcome does not depend on the endpoint at all. */
  lemma NoQueryWithoutIdentifiers(text: string, draw: nat, topic: string, location: Int64,
                                  nearby: Slice<Int64>, api: Endpoint)
    requires LineBreaksOnly(text)
    ensures Step(Success(text), draw, topic, location, nearby, api) == Failure(NoIdentifiers)
  {
    ParseEmpty(text);
  }

  /** The text `main` prints after "Error: " for each way a round can fail:
      the wrapped read error, the empty-list message, or the endpoint's
      error unchanged. */
  lemma ErrorTexts(file: Result<string, string>, draw: nat, topic: string, location: Int64,
                   nearby: Slice<Int64>, api: Endpoint)
    ensures var r := Step(file, draw, topic, location, nearby, api);
            && (file.Failure? ==> r.Failure? && r.error.Text() == "Failed to read personnumer: " + file.error)
            && (file.Success? && Parse(file.value) == [] ==>
                  r.Failure? && r.error.Text() == "No personnnumer present. Please add at least one.")
            && (file.Success? && Parse(file.value) != [] &&
                api(NewRequest(Pick(Parse(file.value), draw), location, nearby)).Failure? ==>
                  r.Failure? && r.error.Text() == api(NewRequest(Pick(Parse(file.value), draw), location, nearby)).error)
  {}

  /** A failed query ends the round with the endpoint's error, unchanged. */
  lemma CheckFailurePropagates(text: string, draw: nat, topic: string, location: Int64,
                               nearby: Slice<Int64>, api: Endpoint)
    requires |Parse(text)| > 0
    requires api(NewRequest(Pick(Parse(text), draw), location, nearby)).Failure?
    ensures Step(Success(text), draw, topic, location, nearby, api)
         == Failure(CheckFailed(api(NewRequest(Pick(Parse(text), draw), location, nearby)).error))
  {}

  /** A relay post happens exactly when the first bundle of the reply holds
      an occasion, and it carries the message of the reply. */
  lemma NotifiesExactlyOnSlots(text: string, draw: nat, topic: string, location: Int64,
                               nearby: Slice<Int64>, api: Endpoint)
    requires |Parse(text)| > 0
    requires api(NewRequest(Pick(Parse(text), draw), location, nearby)).Success?
    ensures var res := api(NewRequest(Pick(Parse(text), draw), location, nearby)).value;
            var r := Step(Success(text), draw, topic, location, nearby, api);
            && r.Success?
            && (r.value.notification.Some? <==> |res.bundles| > 0 && |res.bundles[0].occasions| > 0)
            && (r.value.notification.Some? ==> r.value.notification.value.body == Message(res))
  {}

  /** The query carries the primary location as given, even 0, and the
      nearby list `main` built from the other three flags. */
  lemma QueryLocations(file: Result<string, string>, draw: nat, topic: string, location1: Int64,
                       location2: Int64, location3: Int64, location4: Int64, api: Endpoint)
    ensures var r := Step(file, draw, topic, location1, Nearby(location2, location3, location4), api);
            r.Success? ==> && r.value.request.occasionBundleQuery.locationId == location1
                           && r.value.request.occasionBundleQuery.nearbyLocationIds.Elems()
                              == NonZero([location2, location3, location4])
  {
    NearbyIsNonZero(location2, location3, location4);
  }

  // ---------------------------------------------------------------------
  // The loop itself

  /** The inputs of one round. */
  datatype Round = Round(file: Result<string, string>, draw: nat, api: Endpoint)

  /** The rounds that completed and, if the loop stopped, why. */
  datatype Trace = Trace(checks: seq<Checked>, fatal: Option<Fatal>)

  /** One round, with the loop's fixed arguments. */
  function Play(round: Round, topic: string, location: Int64, nearby: Slice<Int64>): Result<Checked, Fatal> {
    Step(round.file, round.draw, topic, location, nearby, round.api)
  }

  /** The control flow of `loop`, for any way of playing a round: it plays
      round after round and returns at the first failure, without retrying. */
  function Run(rounds: seq<Round>, play: Round -> Result<Checked, Fatal>): (t: Trace)
    ensures |t.checks| <= |rounds|
    ensures t.fatal.None? ==> |t.checks| == |rounds|
    ensures forall i :: 0 <= i < |t.checks| ==> play(rounds[i]) == Success(t.checks[i])
    ensures t.fatal.Some? ==> |t.checks| < |rounds| && play(rounds[|t.checks|]) == Failure(t.fatal.value)
  {
    if |rounds| == 0 then Trace([], None)
    else
      match play(rounds[0])
      case Failure(e) => Trace([], Some(e))
      case Success(c) =>
        var rest := Run(rounds[1..], play);
        assert forall i :: 0 <= i < |rest.checks| ==> rounds[1..][i] == rounds[i + 1];
        Trace([c] + rest.checks, rest.fatal)
  }

  /** `loop(topic, location, nearby)` over a finite prefix of its rounds:
      every recorded round succeeded, in order, and a failure ends the loop
      at the round that raised it. */
  function Loop(rounds: seq<Round>, topic: string, location: Int64, nearby: Slice<Int64>): (t: Trace)
    ensures |t.checks| <= |rounds|
    ensures t.fatal.None? ==> |t.checks| == |rounds|
    ensures forall i :: 0 <= i < |t.checks| ==> Play(rounds[i], topic, location, nearby) == Success(t.checks[i])
    ensures t.fatal.Some? ==> |t.checks| < |rounds| && Play(rounds[|t.checks|], topic, location, nearby) == Failure(t.fatal.value)
  {
    Run(rounds, round => Play(round, topic, location, nearby))
  }
}

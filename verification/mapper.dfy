/**
 * map_reviews_to_journey without its I/O: pick the latest summary and
 * journey files, collect the set of step names, take the classifier's reply
 * and run the fail-fast validation loop that rewrites each review's date in
 * place. The classifier is a parameter (its reply), and so are the contents
 * of the journey file.
 */
module JourneyMapper {
  import opened Text
  import opened Wrappers
  import opened Json
  import opened Listing
  import opened DateFormat

  /** One review of the classifier's reply: a JSON object whose fields may be missing. */
  type Record = map<string, Value>

  /** The exceptions map_reviews_to_journey raises, with what their messages carry. */
  datatype MapError =
    | NoSummaryFiles                    // "No summarized reviews found"
    | NoJourneyFiles                    // "No journey steps found"
    | JourneyNotAnObject                // journey_data.get on a non-dict
    | MissingJourneySteps               // "Journey data missing journey_steps"
    | MalformedJourneySteps             // a step that is not an object with a hashable step_name
    | EmptyResponse                     // "Empty response from OpenAI"
    | InvalidJsonResponse               // json.JSONDecodeError, re-raised
    | MissingReviewsKey                 // "Response missing reviews_by_journey_step"
    | MissingFields(names: seq<string>) // "Review missing required fields: [...]"
    | DateFormatError(date: Value)      // "Date format error: ..."
    | UnhashableStepName(step: Value)   // TypeError "unhashable type" from the set lookup, re-raised
    | InvalidStepName(step: Value)      // "Invalid step_name: ..."
    | InvalidRating(rating: Value)      // "Invalid rating value: ..."
    | InvalidDate(text: string)         // "Invalid date format: ..."

  const SummaryDir: string := "summarized-reviews"
  const JourneyDir: string := "journey-steps"
  const SummaryPrefix: string := "summarized_reviews_"
  const JourneyPrefix: string := "customer_journey_"

  // ---------------------------------------------------------------------
  // The set of valid step names
  // ---------------------------------------------------------------------

  /** A journey step from which step['step_name'] can be read and put in a set. */
  predicate IsStep(step: Value)
  {
    step.Dict? && "step_name" in step.fields && Hashable(step.fields["step_name"])
  }

  /**
   * {step['step_name'] for step in journey_data['journey_steps']}, after the
   * check that journey_steps is present and non-empty. A journey whose steps
   * are not a list of objects with a hashable step_name makes Python raise a
   * TypeError or KeyError; all of these are MalformedJourneySteps here.
   */
  function StepNames(journey: Value): (r: Result<set<Value>, MapError>)
    ensures r == Failure(JourneyNotAnObject) <==> !journey.Dict?
    ensures r == Failure(MissingJourneySteps) <==>
      journey.Dict? && ("journey_steps" !in journey.fields || !Truthy(journey.fields["journey_steps"]))
    ensures r.Success? <==>
      && journey.Dict? && "journey_steps" in journey.fields
      && journey.fields["journey_steps"].List? && journey.fields["journey_steps"].items != []
      && forall step :: step in journey.fields["journey_steps"].items ==> IsStep(step)
    ensures r.Success? ==>
      var steps := journey.fields["journey_steps"].items;
      forall v :: v in r.value <==> exists i :: 0 <= i < |steps| && IsStep(steps[i]) && steps[i].fields["step_name"] == v
  {
    if !journey.Dict? then Failure(JourneyNotAnObject)
    else if "journey_steps" !in journey.fields || !Truthy(journey.fields["journey_steps"]) then Failure(MissingJourneySteps)
    else
      var steps := journey.fields["journey_steps"];
      if !steps.List? || exists step :: step in steps.items && !IsStep(step) then Failure(MalformedJourneySteps)
      else
        var names := set step | step in steps.items :: step.fields["step_name"];
        assert forall v :: v in names ==> exists i :: 0 <= i < |steps.items| && IsStep(steps.items[i]) && steps.items[i].fields["step_name"] == v;
        Success(names)
  }

  // ---------------------------------------------------------------------
  // One review
  // ---------------------------------------------------------------------

  const RequiredFields: seq<string> := ["step_name", "rating", "date"]

  /** "step_name", "rating" and "date" are all keys of the review. */
  predicate HasRequiredFields(review: Record)
  {
    "step_name" in review && "rating" in review && "date" in review
  }

  /** The error lists exactly the absent required fields, in the order step_name, rating, date. */
  lemma MissingFieldsInOrder(review: Record)
    ensures MissingKeys(review.Keys, RequiredFields) ==
      (if "step_name" in review then [] else ["step_name"])
      + (if "rating" in review then [] else ["rating"])
      + (if "date" in review then [] else ["date"])
    ensures MissingKeys(review.Keys, RequiredFields) == [] <==> HasRequiredFields(review)
  {
    assert RequiredFields[1..] == ["rating", "date"];
    assert ["rating", "date"][1..] == ["date"];
    assert ["date"][1..] == [];
    assert MissingKeys(review.Keys, ["date"]) == (if "date" in review then [] else ["date"]);
    assert MissingKeys(review.Keys, ["rating", "date"]) ==
      (if "rating" in review then [] else ["rating"]) + MissingKeys(review.Keys, ["date"]);
  }

  /**
   * review["date"] = convert_date_format(review["date"]). A date that is not
   * a str makes strptime raise TypeError, which convert_date_format turns
   * into the same ValueError as an unsupported format.
   */
  function NormalizeDate(date: Value): (r: Result<string, MapError>)
    ensures r.Success? <==> date.Str? && ConvertDate(date.s).Success?
    ensures r.Success? ==> r.value == ConvertDate(date.s).value
    ensures r.Failure? ==> r.error == DateFormatError(date)
  {
    if date.Str? then
      match ConvertDate(date.s)
      case Success(t) => Success(t)
      case Failure(_) => Failure(DateFormatError(date))
    else Failure(DateFormatError(date))
  }

  /** isinstance(rating, int) and 1 <= rating <= 5. */
  predicate ValidRating(rating: Value)
  {
    rating.Int? && 1 <= rating.i <= 5
  }

  /**
   * What a review must satisfy to pass the loop, in no particular order:
   * all three fields, a date some format reads and whose normal form the
   * strict check reads back, a known step name and a rating of 1..5.
   */
  predicate Accepted(review: Record, steps: set<Value>)
  {
    && HasRequiredFields(review)
    && review["date"].Str? && ConvertDate(review["date"].s).Success?
    && StrictIso(ConvertDate(review["date"].s).value)
    && Hashable(review["step_name"]) && review["step_name"] in steps
    && ValidRating(review["rating"])
  }

  /**
   * One iteration of the validation loop: the checks run as fields, date,
   * step name, rating, strict date, and the first that fails is the error.
   */
  function CheckReview(review: Record, steps: set<Value>): (r: Result<Record, MapError>)
    ensures r.Success? ==>
      && r.value.Keys == review.Keys && HasRequiredFields(r.value)
      && r.value["date"].Str? && StrictIso(r.value["date"].s)
      && Hashable(r.value["step_name"]) && r.value["step_name"] in steps && ValidRating(r.value["rating"])
  {
    if !HasRequiredFields(review) then Failure(MissingFields(MissingKeys(review.Keys, RequiredFields)))
    else
      match NormalizeDate(review["date"])
      case Failure(e) => Failure(e)
      case Success(date) =>
        if !Hashable(review["step_name"]) then Failure(UnhashableStepName(review["step_name"]))
        else if review["step_name"] !in steps then Failure(InvalidStepName(review["step_name"]))
        else if !ValidRating(review["rating"]) then Failure(InvalidRating(review["rating"]))
        else if !StrictIso(date) then Failure(InvalidDate(date))
        else Success(review["date" := Str(date)])
  }

  /**
   * A review passes exactly when it is Accepted, and then comes back with
   * only its date rewritten to the normal form.
   */
  lemma CheckReviewAccepts(review: Record, steps: set<Value>)
    ensures CheckReview(review, steps).Success? <==> Accepted(review, steps)
    ensures CheckReview(review, steps).Success? ==>
      var out := CheckReview(review, steps).value;
      && out.Keys == review.Keys
      && out["date"] == Str(ConvertDate(review["date"].s).value)
      && forall k :: k in review && k != "date" ==> out[k] == review[k]
  {
    MissingFieldsInOrder(review);
  }

  /**
   * Which check reports a failing review: each error is raised only when
   * every check before it in the loop body has passed.
   */
  lemma CheckReviewOrder(review: Record, steps: set<Value>)
    requires CheckReview(review, steps).Failure?
    ensures var e := CheckReview(review, steps).error;
      && (e.MissingFields? <==> MissingKeys(review.Keys, RequiredFields) != [])
      && (e.MissingFields? ==> e.names == MissingKeys(review.Keys, RequiredFields))
      && (!e.MissingFields? ==> HasRequiredFields(review))
      && (e.DateFormatError? <==> !e.MissingFields? && NormalizeDate(review["date"]).Failure?)
      && (e.DateFormatError? ==> e.date == review["date"])
      && (e.UnhashableStepName? ==> NormalizeDate(review["date"]).Success? && e.step == review["step_name"] && !Hashable(e.step))
      && (e.InvalidStepName? ==>
            NormalizeDate(review["date"]).Success? && e.step == review["step_name"] && Hashable(e.step) && e.step !in steps)
      && (e.InvalidRating? ==>
            NormalizeDate(review["date"]).Success? && review["step_name"] in steps
            && e.rating == review["rating"] && !ValidRating(e.rating))
      && (e.InvalidDate? ==>
            review["step_name"] in steps && ValidRating(review["rating"])
            && e.text == NormalizeDate(review["date"]).value && !StrictIso(e.text))
      && (e.MissingFields? || e.DateFormatError? || e.UnhashableStepName? || e.InvalidStepName?
          || e.InvalidRating? || e.InvalidDate?)
  {
    MissingFieldsInOrder(review);
  }

  // ---------------------------------------------------------------------
  // The whole list
  // ---------------------------------------------------------------------

  /** The outcome of the loop body for each review, in list order. */
  function Outcomes(reviews: seq<Record>, steps: set<Value>): seq<Result<Record, MapError>>
  {
    seq(|reviews|, i requires 0 <= i < |reviews| => CheckReview(reviews[i], steps))
  }

  /** A fail-fast loop over outcomes: the first failure, or every value in order. */
  function FirstFailure(outcomes: seq<Result<Record, MapError>>): (r: Result<seq<Record>, MapError>)
    ensures r.Success? ==> |r.value| == |outcomes|
  {
    if outcomes == [] then Success([])
    else
      match outcomes[0]
      case Failure(e) => Failure(e)
      case Success(x) =>
        match FirstFailure(outcomes[1..])
        case Failure(e) => Failure(e)
        case Success(xs) => Success([x] + xs)
  }

  /** The loop over mapped_data["reviews_by_journey_step"]: the first failure, or every review normalised. */
  function Validate(reviews: seq<Record>, steps: set<Value>): (r: Result<seq<Record>, MapError>)
    ensures r.Success? ==> |r.value| == |reviews|
  {
    FirstFailure(Outcomes(reviews, steps))
  }

  /** When every outcome is a success, the loop yields their values in order. */
  lemma {:induction false} AllPass(outcomes: seq<Result<Record, MapError>>, out: seq<Record>)
    requires |out| == |outcomes|
    requires forall i :: 0 <= i < |outcomes| ==> outcomes[i] == Success(out[i])
    ensures FirstFailure(outcomes) == Success(out)
  {
    if outcomes != [] {
      AllPass(outcomes[1..], out[1..]);
      assert out == [out[0]] + out[1..];
    }
  }

  /** When the outcomes before index i succeed and outcome i fails, the loop stops with that error. */
  lemma {:induction false} StopsAt(outcomes: seq<Result<Record, MapError>>, i: nat)
    requires i < |outcomes| && outcomes[i].Failure?
    requires forall j :: 0 <= j < i ==> outcomes[j].Success?
    ensures FirstFailure(outcomes) == Failure(outcomes[i].error)
  {
    if i > 0 {
      StopsAt(outcomes[1..], i - 1);
    }
  }

  /**
   * The fail-fast loop fails exactly when some outcome is a failure, and then
   * with the first failure; otherwise it yields every value in order.
   */
  lemma FirstFailureDecides(outcomes: seq<Result<Record, MapError>>)
    ensures FirstFailure(outcomes).Success? <==> forall i :: 0 <= i < |outcomes| ==> outcomes[i].Success?
    ensures FirstFailure(outcomes).Success? ==>
      forall i :: 0 <= i < |outcomes| ==> FirstFailure(outcomes).value[i] == outcomes[i].value
    ensures FirstFailure(outcomes).Failure? ==>
      exists i :: 0 <= i < |outcomes| && outcomes[i] == Failure(FirstFailure(outcomes).error)
        && forall j :: 0 <= j < i ==> outcomes[j].Success?
  {
    if forall i :: 0 <= i < |outcomes| ==> outcomes[i].Success? {
      var out := seq(|outcomes|, i requires 0 <= i < |outcomes| => outcomes[i].value);
      AllPass(outcomes, out);
    } else {
      var k :| 0 <= k < |outcomes| && outcomes[k].Failure?;
      var oks := seq(|outcomes|, j requires 0 <= j < |outcomes| => outcomes[j].Success?);
      assert !oks[k];
      var i := FirstFalse(oks, 0);
      assert forall j :: 0 <= j < i ==> outcomes[j].Success? by {
        forall j | 0 <= j < i ensures outcomes[j].Success? {
          assert oks[j];
        }
      }
      StopsAt(outcomes, i);
    }
  }

  /**
   * Reviews are checked in list order: the loop fails exactly when some
   * review fails its checks, and then with the error of the first such
   * review; otherwise it yields each review's normal form.
   */
  lemma FirstFailingReviewDecides(reviews: seq<Record>, steps: set<Value>)
    ensures Validate(reviews, steps).Success? <==> forall i :: 0 <= i < |reviews| ==> CheckReview(reviews[i], steps).Success?
    ensures Validate(reviews, steps).Success? ==>
      forall i :: 0 <= i < |reviews| ==> Validate(reviews, steps).value[i] == CheckReview(reviews[i], steps).value
    ensures Validate(reviews, steps).Failure? ==>
      exists i :: 0 <= i < |reviews| && CheckReview(reviews[i], steps) == Failure(Validate(reviews, steps).error)
        && forall j :: 0 <= j < i ==> CheckReview(reviews[j], steps).Success?
  {
    var outcomes := Outcomes(reviews, steps);
    FirstFailureDecides(outcomes);
    assert forall i :: 0 <= i < |reviews| ==> outcomes[i] == CheckReview(reviews[i], steps);
  }

  /** The first false entry of a list of outcomes that holds one. */
  lemma {:induction false} FirstFalse(oks: seq<bool>, from: nat) returns (i: nat)
    requires from <= |oks| && (forall j :: 0 <= j < from ==> oks[j]) && false in oks
    ensures i < |oks| && !oks[i] && forall j :: 0 <= j < i ==> oks[j]
    decreases |oks| - from
  {
    if from == |oks| {
      assert false;
    } else if !oks[from] {
      i := from;
    } else {
      i := FirstFalse(oks, from + 1);
    }
  }

  /**
   * A validated list has the length and order of the reply, only dates
   * changed, every step name in the taxonomy, every rating in 1..5 and every
   * date in a form "%Y-%m-%d" reads.
   */
  lemma ValidatedReviews(reviews: seq<Record>, steps: set<Value>)
    requires Validate(reviews, steps).Success?
    ensures var out := Validate(reviews, steps).value;
      && |out| == |reviews|
      && forall i :: 0 <= i < |out| ==>
        && HasRequiredFields(out[i])
        && out[i].Keys == reviews[i].Keys
        && (forall k :: k in reviews[i] && k != "date" ==> out[i][k] == reviews[i][k])
        && Hashable(out[i]["step_name"]) && out[i]["step_name"] in steps
        && ValidRating(out[i]["rating"])
        && out[i]["date"].Str? && StrictIso(out[i]["date"].s)
  {
    FirstFailureDecides(Outcomes(reviews, steps));
    var out := Validate(reviews, steps).value;
    forall i | 0 <= i < |out|
      ensures HasRequiredFields(out[i]) && out[i].Keys == reviews[i].Keys
      ensures forall k :: k in reviews[i] && k != "date" ==> out[i][k] == reviews[i][k]
      ensures Hashable(out[i]["step_name"]) && out[i]["step_name"] in steps && ValidRating(out[i]["rating"])
      ensures out[i]["date"].Str? && StrictIso(out[i]["date"].s)
    {
      CheckReviewAccepts(reviews[i], steps);
    }
  }

  /**
   * The body of the loop for the review at index i: its date is overwritten
   * in place before the remaining checks run, so a review that fails on its
   * step name, rating or strict date keeps the rewritten date.
   */
  method CheckInPlace(a: array<Record>, i: nat, steps: set<Value>) returns (err: Option<MapError>)
    requires i < a.Length
    modifies a
    ensures forall j :: 0 <= j < a.Length && j != i ==> a[j] == old(a[j])
    ensures err.None? <==> CheckReview(old(a[i]), steps).Success?
    ensures err.None? ==> a[i] == CheckReview(old(a[i]), steps).value
    ensures err.Some? ==> CheckReview(old(a[i]), steps) == Failure(err.value)
    ensures a[i].Keys == old(a[i]).Keys && forall k :: k in a[i] && k != "date" ==> a[i][k] == old(a[i])[k]
  {
    var review := a[i];
    MissingFieldsInOrder(review);
    var missing := MissingKeys(review.Keys, RequiredFields);
    if missing != [] {
      return Some(MissingFields(missing));
    }
    var date := NormalizeDate(review["date"]);
    if date.Failure? {
      return Some(date.error);
    }
    a[i] := review["date" := Str(date.value)];
    if !Hashable(a[i]["step_name"]) {
      return Some(UnhashableStepName(a[i]["step_name"]));
    }
    if a[i]["step_name"] !in steps {
      return Some(InvalidStepName(a[i]["step_name"]));
    }
    if !ValidRating(a[i]["rating"]) {
      return Some(InvalidRating(a[i]["rating"]));
    }
    if !StrictIso(a[i]["date"].s) {
      return Some(InvalidDate(a[i]["date"].s));
    }
    return None;
  }

  /**
   * The loop over the reply's list of reviews, in list order, ending at the
   * first review that fails.
   */
  method ValidateInPlace(a: array<Record>, steps: set<Value>) returns (err: Option<MapError>)
    modifies a
    ensures err.None? <==> Validate(old(a[..]), steps).Success?
    ensures err.None? ==> a[..] == Validate(old(a[..]), steps).value
    ensures err.Some? ==> Validate(old(a[..]), steps) == Failure(err.value)
    ensures forall j :: 0 <= j < a.Length ==>
      a[j].Keys == old(a[j]).Keys && forall k :: k in a[j] && k != "date" ==> a[j][k] == old(a[j])[k]
  {
    ghost var reviews := a[..];
    ghost var outcomes := Outcomes(reviews, steps);
    var i := 0;
    while i < a.Length
      invariant 0 <= i <= a.Length
      invariant forall j :: 0 <= j < i ==> outcomes[j] == Success(a[j])
      invariant forall j :: i <= j < a.Length ==> a[j] == reviews[j]
      invariant forall j :: 0 <= j < a.Length ==>
        a[j].Keys == reviews[j].Keys && forall k :: k in a[j] && k != "date" ==> a[j][k] == reviews[j][k]
    {
      err := CheckInPlace(a, i, steps);
      if err.Some? {
        StopsAt(outcomes, i);
        return;
      }
      i := i + 1;
    }
    AllPass(outcomes, a[..]);
    err := None;
  }

  // ---------------------------------------------------------------------
  // The whole stage
  // ---------------------------------------------------------------------

  /** What the chat completion call gives back, after json.loads of the first choice's content. */
  datatype Reply =
    | EmptyContent                        // content is None or ""
    | InvalidJson                         // json.loads raises
    | Decoded(reviews: Option<seq<Record>>) // an object, with or without reviews_by_journey_step

  /** The file json.dump writes: the two source paths and the validated reviews (the timestamp is left out). */
  datatype Output = Output(summarySource: string, journeySource: string, mappedReviews: seq<Record>)

  /** Some listed name starts with the prefix. */
  predicate AnyWithPrefix(listing: seq<string>, prefix: string)
  {
    exists f :: f in listing && HasPrefix(f, prefix)
  }

  /** The stage as a function of the two directory listings, the journey file and the classifier's reply. */
  function MapReviews(summaryListing: seq<string>, journeyListing: seq<string>, journey: Value, reply: Reply)
    : Result<Output, MapError>
  {
    match LatestWithPrefix(summaryListing, SummaryPrefix)
    case NoneFound => Failure(NoSummaryFiles)
    case Found(summary) =>
      match LatestWithPrefix(journeyListing, JourneyPrefix)
      case NoneFound => Failure(NoJourneyFiles)
      case Found(journeyFile) =>
        match StepNames(journey)
        case Failure(e) => Failure(e)
        case Success(steps) =>
          match reply
          case EmptyContent => Failure(EmptyResponse)
          case InvalidJson => Failure(InvalidJsonResponse)
          case Decoded(None) => Failure(MissingReviewsKey)
          case Decoded(Some(reviews)) =>
            match Validate(reviews, steps)
            case Failure(e) => Failure(e)
            case Success(mapped) => Success(Output(PathJoin(SummaryDir, summary), PathJoin(JourneyDir, journeyFile), mapped))
  }

  /**
   * map_reviews_to_journey: the reply's reviews are copied into an array
   * that the validation loop rewrites in place; nothing is produced unless
   * every review passes.
   */
  method MapReviewsToJourney(summaryListing: seq<string>, journeyListing: seq<string>, journey: Value, reply: Reply)
    returns (r: Result<Output, MapError>)
    ensures r == MapReviews(summaryListing, journeyListing, journey, reply)
  {
    var summary := LatestWithPrefix(summaryListing, SummaryPrefix);
    if summary.NoneFound? {
      return Failure(NoSummaryFiles);
    }
    var journeyFile := LatestWithPrefix(journeyListing, JourneyPrefix);
    if journeyFile.NoneFound? {
      return Failure(NoJourneyFiles);
    }
    var steps := StepNames(journey);
    if steps.Failure? {
      return Failure(steps.error);
    }
    if reply.EmptyContent? {
      return Failure(EmptyResponse);
    }
    if reply.InvalidJson? {
      return Failure(InvalidJsonResponse);
    }
    if reply.reviews.None? {
      return Failure(MissingReviewsKey);
    }
    var a := new Record[|reply.reviews.value|](i requires 0 <= i < |reply.reviews.value| => reply.reviews.value[i]);
    assert a[..] == reply.reviews.value;
    var err := ValidateInPlace(a, steps.value);
    if err.Some? {
      return Failure(err.value);
    }
    return Success(Output(PathJoin(SummaryDir, summary.name), PathJoin(JourneyDir, journeyFile.name), a[..]));
  }

  /**
   * The stage fails with the first missing input, in the order summary
   * files, journey files, journey steps, reply: a listing without a prefixed
   * name is reported whatever else is wrong, and a bad journey file before
   * anything about the reply.
   */
  lemma MapReviewsErrorOrder(summaryListing: seq<string>, journeyListing: seq<string>, journey: Value, reply: Reply)
    ensures !AnyWithPrefix(summaryListing, SummaryPrefix) ==>
      MapReviews(summaryListing, journeyListing, journey, reply) == Failure(NoSummaryFiles)
    ensures AnyWithPrefix(summaryListing, SummaryPrefix) && !AnyWithPrefix(journeyListing, JourneyPrefix) ==>
      MapReviews(summaryListing, journeyListing, journey, reply) == Failure(NoJourneyFiles)
    ensures (AnyWithPrefix(summaryListing, SummaryPrefix) && AnyWithPrefix(journeyListing, JourneyPrefix)
      && StepNames(journey).Failure?) ==>
      MapReviews(summaryListing, journeyListing, journey, reply) == Failure(StepNames(journey).error)
    ensures (AnyWithPrefix(summaryListing, SummaryPrefix) && AnyWithPrefix(journeyListing, JourneyPrefix)
      && StepNames(journey).Success? && reply.EmptyContent?) ==>
      MapReviews(summaryListing, journeyListing, journey, reply) == Failure(EmptyResponse)
  {
    LatestIsGreatest(summaryListing, SummaryPrefix);
    LatestIsGreatest(journeyListing, JourneyPrefix);
  }

  /**
   * Any failure aborts the stage before anything is written. On success the
   * sources are the greatest prefixed names of their listings, and the
   * persisted list has the reply's length and order and differs from it only
   * in normalised dates, with every step name in the taxonomy and every
   * rating in 1..5.
   */
  lemma MappedReviewsPreserved(summaryListing: seq<string>, journeyListing: seq<string>, journey: Value, reply: Reply)
    requires MapReviews(summaryListing, journeyListing, journey, reply).Success?
    ensures var out := MapReviews(summaryListing, journeyListing, journey, reply).value;
      && LatestWithPrefix(summaryListing, SummaryPrefix).Found?
      && out.summarySource == PathJoin(SummaryDir, LatestWithPrefix(summaryListing, SummaryPrefix).name)
      && LatestWithPrefix(journeyListing, JourneyPrefix).Found?
      && out.journeySource == PathJoin(JourneyDir, LatestWithPrefix(journeyListing, JourneyPrefix).name)
      && reply.Decoded? && reply.reviews.Some? && StepNames(journey).Success?
      && var reviews := reply.reviews.value;
      && |out.mappedReviews| == |reviews|
      && forall i :: 0 <= i < |reviews| ==>
        && HasRequiredFields(out.mappedReviews[i])
        && out.mappedReviews[i].Keys == reviews[i].Keys
        && (forall k :: k in reviews[i] && k != "date" ==> out.mappedReviews[i][k] == reviews[i][k])
        && Hashable(out.mappedReviews[i]["step_name"]) && out.mappedReviews[i]["step_name"] in StepNames(journey).value
        && ValidRating(out.mappedReviews[i]["rating"])
        && out.mappedReviews[i]["date"].Str? && StrictIso(out.mappedReviews[i]["date"].s)
  {
    ValidatedReviews(reply.reviews.value, StepNames(journey).value);
  }

  /** The metadata object of the persisted document (its timestamp is left out). */
  function Metadata(out: Output): Value
  {
    Dict(map["summary_source" := Str(out.summarySource), "journey_source" := Str(out.journeySource)])
  }

  /** The validated reviews as a JSON list of objects. */
  function ReviewList(reviews: seq<Record>): (v: Value)
    ensures v.List? && |v.items| == |reviews|
    ensures forall i :: 0 <= i < |reviews| ==> v.items[i] == Dict(reviews[i])
  {
    List(seq(|reviews|, i requires 0 <= i < |reviews| => Dict(reviews[i])))
  }

  /**
   * The document json.dump writes, as the code has it: the reviews go under
   * "mapped_reviews", a key the rating plotter does not read.
   */
  function PersistedAsWritten(out: Output): (v: Value)
    ensures v.Dict? && v.fields.Keys == {"metadata", "mapped_reviews"}
    ensures v.fields["mapped_reviews"] == ReviewList(out.mappedReviews)
  {
    Dict(map["metadata" := Metadata(out), "mapped_reviews" := ReviewList(out.mappedReviews)])
  }

  /**
   * The document with the reviews under "reviews_by_journey_step", the key
   * of the classifier's reply and the key the rating plotter requires.
   */
  function Persisted(out: Output): (v: Value)
    ensures v.Dict? && v.fields.Keys == {"metadata", "reviews_by_journey_step"}
    ensures v.fields["reviews_by_journey_step"] == ReviewList(out.mappedReviews)
  {
    Dict(map["metadata" := Metadata(out), "reviews_by_journey_step" := ReviewList(out.mappedReviews)])
  }
}

/**
 * The data half of plot_average_ratings: validate the two loaded documents,
 * build the review table, map ratings 1..5 onto -2..2, average them per
 * journey step and reorder the averages by the taxonomy. pandas' float
 * arithmetic is replaced by exact rationals, and NaN by an explicit value.
 */
module RatingPlot {
  import opened Wrappers
  import opened Json
  import JourneyMapper

  /** One row of the review table: the fields of one review object. */
  type Row = map<string, Value>

  /** The exceptions raised before any averaging. */
  datatype PlotError =
    | NotADict                             // "Data must be a dictionary"
    | MissingKeysError(keys: seq<string>)  // "Missing required keys: [...]"
    | MalformedJourneySteps                // a step that is not an object with a step_name
    | NoJourneySteps                       // "No journey steps found"
    | MalformedReviews                     // reviews_by_journey_step is not a list of objects
    | NoReviewData                         // "No review data found"
    | MissingColumns(columns: seq<string>) // "Missing required columns: [...]"
    | UnhashableStepName(step: Value)      // TypeError "unhashable type" from groupby('step_name')
    | UnhashableRequiredStep(step: Value)  // TypeError "unhashable type" from reindex(required_steps)

  /** validate_data(data, required_keys). */
  function ValidateData(data: Value, required: seq<string>): (r: Option<PlotError>)
    ensures r == Some(NotADict) <==> !data.Dict?
    ensures r.None? <==> data.Dict? && forall k :: k in required ==> k in data.fields
    ensures r.Some? && data.Dict? ==>
      r.value.MissingKeysError? && r.value.keys != []
      && forall k :: k in r.value.keys <==> k in required && k !in data.fields
  {
    if !data.Dict? then Some(NotADict)
    else
      var missing := MissingKeys(data.fields.Keys, required);
      if missing != [] then Some(MissingKeysError(missing)) else None
  }

  // ---------------------------------------------------------------------
  // The two tables
  // ---------------------------------------------------------------------

  /**
   * [step['step_name'] for step in steps_data['journey_steps']]. Iterating an
   * empty string or an empty object yields no steps at all; anything else but
   * a list of objects that all have a step_name makes Python raise TypeError
   * or KeyError.
   */
  function RequiredSteps(journeySteps: Value): (r: Result<seq<Value>, PlotError>)
    ensures r.Success? <==>
      || (journeySteps.List? && forall i :: 0 <= i < |journeySteps.items| ==>
            journeySteps.items[i].Dict? && "step_name" in journeySteps.items[i].fields)
      || journeySteps == Str([])
      || journeySteps == Dict(map[])
    ensures r.Success? && journeySteps.List? ==>
      |r.value| == |journeySteps.items|
      && forall i :: 0 <= i < |r.value| ==> r.value[i] == journeySteps.items[i].fields["step_name"]
    ensures r.Success? && !journeySteps.List? ==> r.value == []
    ensures r.Failure? ==> r.error == MalformedJourneySteps
  {
    if journeySteps.List? && forall i :: 0 <= i < |journeySteps.items| ==>
        journeySteps.items[i].Dict? && "step_name" in journeySteps.items[i].fields
    then
      var steps := journeySteps.items;
      Success(seq(|steps|, i requires 0 <= i < |steps| => steps[i].fields["step_name"]))
    else if journeySteps == Str([]) || journeySteps == Dict(map[]) then Success([])
    else Failure(MalformedJourneySteps)
  }

  /** An empty string or object under journey_steps holds no steps, which is reported as such. */
  lemma EmptyJourneyStepsReported(reviewsData: Value, stepsData: Value)
    requires ValidateData(reviewsData, ["reviews_by_journey_step"]).None?
    requires stepsData == Dict(map["journey_steps" := Dict(map[])])
      || stepsData == Dict(map["journey_steps" := Str([])])
    ensures PlotData(reviewsData, stepsData) == Failure(NoJourneySteps)
  {
    assert ValidateData(stepsData, ["journey_steps"]).None?;
  }

  /** pd.json_normalize on a list of flat objects: one row per object. */
  function ReviewRows(reviews: Value): (r: Result<seq<Row>, PlotError>)
    ensures r.Success? <==> reviews.List? && forall i :: 0 <= i < |reviews.items| ==> reviews.items[i].Dict?
    ensures r.Success? ==>
      |r.value| == |reviews.items| && forall i :: 0 <= i < |r.value| ==> r.value[i] == reviews.items[i].fields
    ensures r.Failure? ==> r.error == MalformedReviews
  {
    if reviews.List? && forall i :: 0 <= i < |reviews.items| ==> reviews.items[i].Dict? then
      var items := reviews.items;
      Success(seq(|items|, i requires 0 <= i < |items| => items[i].fields))
    else Failure(MalformedReviews)
  }

  /** The table's columns: every key of some row. */
  function Columns(rows: seq<Row>): (cols: set<string>)
    ensures forall c :: c in cols <==> exists i :: 0 <= i < |rows| && c in rows[i]
  {
    set i, c | 0 <= i < |rows| && c in rows[i] :: c
  }

  /** DataFrame.empty: no rows, or no columns. */
  predicate EmptyTable(rows: seq<Row>)
  {
    rows == [] || Columns(rows) == {}
  }

  const RequiredColumns: seq<string> := ["step_name", "rating"]

  // ---------------------------------------------------------------------
  // Ratings and averages
  // ---------------------------------------------------------------------

  /** The mapping {5: 2, 4: 1, 3: 0, 2: -1, 1: -2}. */
  const RatingMap: map<int, int> := map[5 := 2, 4 := 1, 3 := 0, 2 := -1, 1 := -2]

  /** The mapping is r - 3 on exactly 1..5, so it is symmetric about 3. */
  lemma RatingMapIsShift()
    ensures forall r :: r in RatingMap <==> 1 <= r <= 5
    ensures forall r :: r in RatingMap ==> RatingMap[r] == r - 3
    ensures forall r :: r in RatingMap ==> 6 - r in RatingMap && RatingMap[6 - r] == -RatingMap[r]
  {
  }

  /** reviews_df['rating'].map(mapping) for one row: None is the NaN of a missing or unmapped rating. */
  function SignedRating(row: Row): (r: Option<int>)
    ensures r.Some? ==> -2 <= r.value <= 2
  {
    RatingMapIsShift();
    if "rating" in row && row["rating"].Int? && row["rating"].i in RatingMap then Some(RatingMap[row["rating"].i])
    else None
  }

  /** The row's group under groupby('step_name'): None when step_name is absent or null, which groupby drops. */
  function GroupKey(row: Row): Option<Value>
  {
    if "step_name" in row && row["step_name"] != Null then Some(row["step_name"]) else None
  }

  /** The signed ratings of the rows in the group of `step`, in row order, NaN skipped. */
  function GroupRatings(rows: seq<Row>, step: Value): (xs: seq<int>)
    ensures forall x :: x in xs ==> -2 <= x <= 2
    ensures |xs| <= |rows|
  {
    if rows == [] then []
    else
      var last := rows[|rows| - 1];
      var init := GroupRatings(rows[..|rows| - 1], step);
      if GroupKey(last) == Some(step) && SignedRating(last).Some? then init + [SignedRating(last).value] else init
  }

  /**
   * The first step_name cell that groupby cannot hash, if any: groupby hashes
   * every key and raises TypeError at the first list it meets.
   */
  function FirstUnhashableStep(rows: seq<Row>): (r: Option<Value>)
    ensures r.None? <==> forall i :: 0 <= i < |rows| && "step_name" in rows[i] ==> Hashable(rows[i]["step_name"])
    ensures r.Some? ==>
      !Hashable(r.value) && exists i :: 0 <= i < |rows| && "step_name" in rows[i] && rows[i]["step_name"] == r.value
  {
    if rows == [] then None
    else if "step_name" in rows[0] && !Hashable(rows[0]["step_name"]) then Some(rows[0]["step_name"])
    else
      var r := FirstUnhashableStep(rows[1..]);
      assert forall i :: 1 <= i < |rows| ==> rows[i] == rows[1..][i - 1];
      r
  }

  /**
   * The first taxonomy step name that reindex cannot hash, if any: reindex
   * hashes every target label and raises TypeError on an object or a list.
   */
  function FirstUnhashable(steps: seq<Value>): (r: Option<Value>)
    ensures r.None? <==> forall i :: 0 <= i < |steps| ==> Hashable(steps[i])
    ensures r.Some? ==> !Hashable(r.value) && r.value in steps
  {
    if steps == [] then None
    else if !Hashable(steps[0]) then Some(steps[0])
    else
      var r := FirstUnhashable(steps[1..]);
      assert forall i :: 1 <= i < |steps| ==> steps[i] == steps[1..][i - 1];
      r
  }

  function Sum(xs: seq<int>): int
  {
    if xs == [] then 0 else Sum(xs[..|xs| - 1]) + xs[|xs| - 1]
  }

  /** A mean as pandas computes it with skipna: NaN when the group has no rating. */
  datatype Average = NaN | Mean(value: real)

  /** groupby('step_name')['rating'].mean() for one group. */
  function GroupMean(rows: seq<Row>, step: Value): Average
  {
    var xs := GroupRatings(rows, step);
    if xs == [] then NaN else Mean((Sum(xs) as real) / (|xs| as real))
  }

  /** The group exists: some row has this step_name. */
  predicate HasGroup(rows: seq<Row>, step: Value)
  {
    exists i :: 0 <= i < |rows| && GroupKey(rows[i]) == Some(step)
  }

  /** .set_index('step_name').reindex(required_steps, fill_value=0): one row per required step, in order. */
  function Reindexed(rows: seq<Row>, required: seq<Value>): seq<(Value, Average)>
  {
    seq(|required|, i requires 0 <= i < |required| =>
      (required[i], if HasGroup(rows, required[i]) then GroupMean(rows, required[i]) else Mean(0.0)))
  }

  /** The part of plot_average_ratings before the figure: errors first, then the averages. */
  function PlotData(reviewsData: Value, stepsData: Value): (r: Result<seq<(Value, Average)>, PlotError>)
    ensures r.Success? ==>
      && ValidateData(reviewsData, ["reviews_by_journey_step"]).None?
      && ValidateData(stepsData, ["journey_steps"]).None?
      && RequiredSteps(stepsData.fields["journey_steps"]).Success?
      && |r.value| == |RequiredSteps(stepsData.fields["journey_steps"]).value| > 0
      && ReviewRows(reviewsData.fields["reviews_by_journey_step"]).Success?
      && "step_name" in Columns(ReviewRows(reviewsData.fields["reviews_by_journey_step"]).value)
      && "rating" in Columns(ReviewRows(reviewsData.fields["reviews_by_journey_step"]).value)
      && FirstUnhashableStep(ReviewRows(reviewsData.fields["reviews_by_journey_step"]).value).None?
      && forall i :: 0 <= i < |r.value| ==> Hashable(RequiredSteps(stepsData.fields["journey_steps"]).value[i])
    ensures r.Failure? && r.error.UnhashableStepName? ==>
      && ValidateData(reviewsData, ["reviews_by_journey_step"]).None?
      && ReviewRows(reviewsData.fields["reviews_by_journey_step"]).Success?
      && !Hashable(r.error.step)
      && MissingKeys(Columns(ReviewRows(reviewsData.fields["reviews_by_journey_step"]).value), RequiredColumns) == []
    ensures r.Failure? && r.error.UnhashableRequiredStep? ==>
      && ValidateData(reviewsData, ["reviews_by_journey_step"]).None?
      && ValidateData(stepsData, ["journey_steps"]).None?
      && RequiredSteps(stepsData.fields["journey_steps"]).Success?
      && r.error.step in RequiredSteps(stepsData.fields["journey_steps"]).value
      && !Hashable(r.error.step)
      && ReviewRows(reviewsData.fields["reviews_by_journey_step"]).Success?
      && FirstUnhashableStep(ReviewRows(reviewsData.fields["reviews_by_journey_step"]).value).None?
  {
    match ValidateData(reviewsData, ["reviews_by_journey_step"])
    case Some(e) => Failure(e)
    case None =>
      match ValidateData(stepsData, ["journey_steps"])
      case Some(e) => Failure(e)
      case None =>
        match RequiredSteps(stepsData.fields["journey_steps"])
        case Failure(e) => Failure(e)
        case Success(required) =>
          if required == [] then Failure(NoJourneySteps)
          else
            match ReviewRows(reviewsData.fields["reviews_by_journey_step"])
            case Failure(e) => Failure(e)
            case Success(rows) =>
              if EmptyTable(rows) then Failure(NoReviewData)
              else
                var missing := MissingKeys(Columns(rows), RequiredColumns);
                if missing != [] then Failure(MissingColumns(missing))
                else
                  match FirstUnhashableStep(rows)
                  case Some(step) => Failure(UnhashableStepName(step))
                  case None =>
                    match FirstUnhashable(required)
                    case Some(step) => Failure(UnhashableRequiredStep(step))
                    case None => Success(Reindexed(rows, required))
  }

  // ---------------------------------------------------------------------
  // Properties
  // ---------------------------------------------------------------------

  lemma {:induction false} SumBounds(xs: seq<int>)
    requires forall i :: 0 <= i < |xs| ==> -2 <= xs[i] <= 2
    ensures -2 * |xs| <= Sum(xs) <= 2 * |xs|
  {
    if xs != [] {
      SumBounds(xs[..|xs| - 1]);
    }
  }

  /** Every average lies on the signed scale: between -2 and 2. */
  lemma MeanWithinScale(rows: seq<Row>, step: Value)
    requires GroupMean(rows, step).Mean?
    ensures -2.0 <= GroupMean(rows, step).value <= 2.0
  {
    var xs := GroupRatings(rows, step);
    assert forall i :: 0 <= i < |xs| ==> xs[i] in xs;
    SumBounds(xs);
    var n := |xs| as real;
    var s := Sum(xs) as real;
    DivisionBounds(s, n);
  }

  lemma DivisionBounds(s: real, n: real)
    requires n > 0.0 && -2.0 * n <= s <= 2.0 * n
    ensures -2.0 <= s / n <= 2.0
  {
    assert (s / n) * n == s;
  }

  /**
   * A successful run has exactly one row per required step, in taxonomy
   * order; a step without reviews gets 0, a step with reviews the mean of
   * their signed ratings, which lies in [-2, 2].
   */
  lemma OneRowPerStep(reviewsData: Value, stepsData: Value)
    requires PlotData(reviewsData, stepsData).Success?
    ensures var out := PlotData(reviewsData, stepsData).value;
      var required := RequiredSteps(stepsData.fields["journey_steps"]).value;
      var rows := ReviewRows(reviewsData.fields["reviews_by_journey_step"]).value;
      && |out| == |required|
      && forall i :: 0 <= i < |out| ==>
        && out[i].0 == required[i]
        && (!HasGroup(rows, required[i]) ==> out[i].1 == Mean(0.0))
        && (HasGroup(rows, required[i]) ==> out[i].1 == GroupMean(rows, required[i]))
        && (out[i].1.Mean? ==> -2.0 <= out[i].1.value <= 2.0)
  {
    var required := RequiredSteps(stepsData.fields["journey_steps"]).value;
    var rows := ReviewRows(reviewsData.fields["reviews_by_journey_step"]).value;
    forall i | 0 <= i < |required| && HasGroup(rows, required[i]) && GroupMean(rows, required[i]).Mean?
      ensures -2.0 <= GroupMean(rows, required[i]).value <= 2.0
    {
      MeanWithinScale(rows, required[i]);
    }
  }

  /** A row outside the group of `step` does not change that group's ratings. */
  lemma {:induction false} OtherRowKeepsRatings(rows: seq<Row>, x: Row, step: Value)
    requires GroupKey(x) != Some(step)
    ensures GroupRatings(rows + [x], step) == GroupRatings(rows, step)
  {
    assert (rows + [x])[..|rows + [x]| - 1] == rows;
  }

  /**
   * The group of a step holds exactly the signed ratings of the rows with
   * that step_name whose rating maps: no other value, and none of those missed.
   */
  lemma {:induction false} GroupRatingsMembers(rows: seq<Row>, step: Value)
    ensures forall x :: x in GroupRatings(rows, step) <==>
      exists i :: 0 <= i < |rows| && GroupKey(rows[i]) == Some(step) && SignedRating(rows[i]) == Some(x)
  {
    if rows != [] {
      var n := |rows| - 1;
      var init := rows[..n];
      GroupRatingsMembers(init, step);
      forall x ensures x in GroupRatings(rows, step) <==>
        exists i :: 0 <= i < |rows| && GroupKey(rows[i]) == Some(step) && SignedRating(rows[i]) == Some(x)
      {
        if x in GroupRatings(init, step) {
          var i :| 0 <= i < |init| && GroupKey(init[i]) == Some(step) && SignedRating(init[i]) == Some(x);
          assert rows[i] == init[i];
        }
        if exists i :: 0 <= i < |rows| && GroupKey(rows[i]) == Some(step) && SignedRating(rows[i]) == Some(x) {
          var i :| 0 <= i < |rows| && GroupKey(rows[i]) == Some(step) && SignedRating(rows[i]) == Some(x);
          if i < n {
            assert init[i] == rows[i];
          }
        }
      }
    }
  }

  /** The sum of the integer ratings of the rows, as the reviews give them (1..5). */
  function StarSum(rows: seq<Row>): int
  {
    if rows == [] then 0
    else
      var last := rows[|rows| - 1];
      StarSum(rows[..|rows| - 1]) + (if "rating" in last && last["rating"].Int? then last["rating"].i else 0)
  }

  /** A group of n reviews of the step, all rated 1..5: n signed ratings summing to the stars less 3n. */
  lemma {:induction false} UniformGroupRatings(rows: seq<Row>, step: Value)
    requires forall i :: 0 <= i < |rows| ==>
      GroupKey(rows[i]) == Some(step) && "rating" in rows[i] && rows[i]["rating"].Int? && 1 <= rows[i]["rating"].i <= 5
    ensures |GroupRatings(rows, step)| == |rows|
    ensures Sum(GroupRatings(rows, step)) == StarSum(rows) - 3 * |rows|
  {
    if rows != [] {
      var n := |rows| - 1;
      var last := rows[n];
      var init := GroupRatings(rows[..n], step);
      UniformGroupRatings(rows[..n], step);
      RatingMapIsShift();
      assert SignedRating(last) == Some(last["rating"].i - 3);
      var xs := init + [last["rating"].i - 3];
      assert xs[..|xs| - 1] == init;
    }
  }

  /**
   * An independent reading of the group mean: for reviews of one step all
   * rated 1..5, the mean of the signed ratings is the mean star rating less 3.
   */
  lemma UniformGroupMean(rows: seq<Row>, step: Value)
    requires rows != []
    requires forall i :: 0 <= i < |rows| ==>
      GroupKey(rows[i]) == Some(step) && "rating" in rows[i] && rows[i]["rating"].Int? && 1 <= rows[i]["rating"].i <= 5
    ensures GroupMean(rows, step) == Mean(((StarSum(rows) - 3 * |rows|) as real) / (|rows| as real))
  {
    UniformGroupRatings(rows, step);
    var xs := GroupRatings(rows, step);
    assert |xs| == |rows| > 0;
    assert GroupMean(rows, step) == Mean((Sum(xs) as real) / (|xs| as real));
  }

  /**
   * Reviews whose step is not in the taxonomy do not reach the result:
   * adding one changes no row.
   */
  lemma ForeignReviewIgnored(rows: seq<Row>, x: Row, required: seq<Value>)
    requires forall i :: 0 <= i < |required| ==> GroupKey(x) != Some(required[i])
    ensures Reindexed(rows + [x], required) == Reindexed(rows, required)
  {
    forall i | 0 <= i < |required|
      ensures Reindexed(rows + [x], required)[i] == Reindexed(rows, required)[i]
    {
      var step := required[i];
      OtherRowKeepsRatings(rows, x, step);
      assert HasGroup(rows + [x], step) <==> HasGroup(rows, step) by {
        if HasGroup(rows + [x], step) {
          var j :| 0 <= j < |rows + [x]| && GroupKey((rows + [x])[j]) == Some(step);
          assert j < |rows| && (rows + [x])[j] == rows[j];
        }
        if HasGroup(rows, step) {
          var j :| 0 <= j < |rows| && GroupKey(rows[j]) == Some(step);
          assert (rows + [x])[j] == rows[j];
        }
      }
    }
  }

  /** The review table lacks exactly the required columns no row has, in the order step_name, rating. */
  lemma MissingColumnsInOrder(rows: seq<Row>)
    ensures MissingKeys(Columns(rows), RequiredColumns) ==
      (if "step_name" in Columns(rows) then [] else ["step_name"])
      + (if "rating" in Columns(rows) then [] else ["rating"])
  {
    assert RequiredColumns[1..] == ["rating"];
    assert ["rating"][1..] == [];
  }

  /**
   * An empty taxonomy, an empty review table or a missing column each stop
   * the run with their error, whatever the ratings are; checks run in that
   * order after both documents are validated.
   */
  lemma ErrorsBeforeAveraging(reviewsData: Value, stepsData: Value)
    requires ValidateData(reviewsData, ["reviews_by_journey_step"]).None?
    requires ValidateData(stepsData, ["journey_steps"]).None?
    requires RequiredSteps(stepsData.fields["journey_steps"]).Success?
    ensures RequiredSteps(stepsData.fields["journey_steps"]).value == [] ==>
      PlotData(reviewsData, stepsData) == Failure(NoJourneySteps)
    ensures (RequiredSteps(stepsData.fields["journey_steps"]).value != []
      && ReviewRows(reviewsData.fields["reviews_by_journey_step"]).Success?
      && EmptyTable(ReviewRows(reviewsData.fields["reviews_by_journey_step"]).value)) ==>
      PlotData(reviewsData, stepsData) == Failure(NoReviewData)
    ensures (RequiredSteps(stepsData.fields["journey_steps"]).value != []
      && ReviewRows(reviewsData.fields["reviews_by_journey_step"]).Success?
      && !EmptyTable(ReviewRows(reviewsData.fields["reviews_by_journey_step"]).value)
      && "rating" !in Columns(ReviewRows(reviewsData.fields["reviews_by_journey_step"]).value)) ==>
      PlotData(reviewsData, stepsData).Failure? && PlotData(reviewsData, stepsData).error.MissingColumns?
  {
  }

  /** A review whose step_name is a list makes groupby raise, once the columns are present. */
  lemma UnhashableStepRejected(reviewsData: Value, stepsData: Value, i: nat)
    requires ValidateData(reviewsData, ["reviews_by_journey_step"]).None?
    requires ValidateData(stepsData, ["journey_steps"]).None?
    requires RequiredSteps(stepsData.fields["journey_steps"]).Success?
    requires RequiredSteps(stepsData.fields["journey_steps"]).value != []
    requires ReviewRows(reviewsData.fields["reviews_by_journey_step"]).Success?
    requires var rows := ReviewRows(reviewsData.fields["reviews_by_journey_step"]).value;
      "rating" in Columns(rows) && i < |rows| && "step_name" in rows[i] && rows[i]["step_name"].List?
    ensures PlotData(reviewsData, stepsData).Failure?
    ensures PlotData(reviewsData, stepsData).error.UnhashableStepName?
  {
    var rows := ReviewRows(reviewsData.fields["reviews_by_journey_step"]).value;
    assert "step_name" in Columns(rows);
    MissingColumnsInOrder(rows);
  }

  /** A list under step_name: the script raises TypeError instead of plotting. */
  lemma ListStepScenario()
    ensures PlotData(
        Dict(map["reviews_by_journey_step" := List([Dict(map["step_name" := List([Str("a")]), "rating" := Int(5)])])]),
        Dict(map["journey_steps" := List([Dict(map["step_name" := Str("a")])])]))
      == Failure(UnhashableStepName(List([Str("a")])))
  {
    var reviews := Dict(map["reviews_by_journey_step" := List([Dict(map["step_name" := List([Str("a")]), "rating" := Int(5)])])]);
    var steps := Dict(map["journey_steps" := List([Dict(map["step_name" := Str("a")])])]);
    assert ValidateData(reviews, ["reviews_by_journey_step"]).None?;
    assert ValidateData(steps, ["journey_steps"]).None?;
    var row := map["step_name" := List([Str("a")]), "rating" := Int(5)];
    assert RequiredSteps(steps.fields["journey_steps"]).value == [Str("a")];
    var rows := ReviewRows(reviews.fields["reviews_by_journey_step"]).value;
    assert |rows| == 1 && rows[0] == row;
    assert rows == [row];
    assert "step_name" in rows[0] && "rating" in rows[0];
    assert "step_name" in Columns([row]) && "rating" in Columns([row]);
    MissingColumnsInOrder([row]);
    assert FirstUnhashableStep([row]) == Some(List([Str("a")]));
  }

  /**
   * A taxonomy step whose step_name is an object or a list makes reindex
   * raise, once the reviews have grouped: no row is filled with 0 for it.
   */
  lemma UnhashableRequiredStepRejected(reviewsData: Value, stepsData: Value, i: nat)
    requires ValidateData(reviewsData, ["reviews_by_journey_step"]).None?
    requires ValidateData(stepsData, ["journey_steps"]).None?
    requires RequiredSteps(stepsData.fields["journey_steps"]).Success?
    requires i < |RequiredSteps(stepsData.fields["journey_steps"]).value|
    requires !Hashable(RequiredSteps(stepsData.fields["journey_steps"]).value[i])
    requires ReviewRows(reviewsData.fields["reviews_by_journey_step"]).Success?
    requires var rows := ReviewRows(reviewsData.fields["reviews_by_journey_step"]).value;
      "step_name" in Columns(rows) && "rating" in Columns(rows) && FirstUnhashableStep(rows).None?
    ensures PlotData(reviewsData, stepsData).Failure?
    ensures PlotData(reviewsData, stepsData).error.UnhashableRequiredStep?
  {
    var rows := ReviewRows(reviewsData.fields["reviews_by_journey_step"]).value;
    MissingColumnsInOrder(rows);
  }

  /** An empty object as a taxonomy step_name: the script raises TypeError instead of plotting a 0 bar. */
  lemma DictStepScenario()
    ensures PlotData(
        Dict(map["reviews_by_journey_step" := List([Dict(map["step_name" := Str("a"), "rating" := Int(5)])])]),
        Dict(map["journey_steps" := List([Dict(map["step_name" := Str("a")]), Dict(map["step_name" := Dict(map[])])])]))
      == Failure(UnhashableRequiredStep(Dict(map[])))
  {
    var reviews := Dict(map["reviews_by_journey_step" := List([Dict(map["step_name" := Str("a"), "rating" := Int(5)])])]);
    var steps := Dict(map["journey_steps" := List([Dict(map["step_name" := Str("a")]), Dict(map["step_name" := Dict(map[])])])]);
    assert ValidateData(reviews, ["reviews_by_journey_step"]).None?;
    assert ValidateData(steps, ["journey_steps"]).None?;
    var row := map["step_name" := Str("a"), "rating" := Int(5)];
    var required := RequiredSteps(steps.fields["journey_steps"]).value;
    assert |required| == 2 && required[0] == Str("a") && required[1] == Dict(map[]);
    assert required == [Str("a"), Dict(map[])];
    var rows := ReviewRows(reviews.fields["reviews_by_journey_step"]).value;
    assert |rows| == 1 && rows[0] == row;
    assert rows == [row];
    assert "step_name" in rows[0] && "rating" in rows[0];
    assert "step_name" in Columns([row]) && "rating" in Columns([row]);
    MissingColumnsInOrder([row]);
    assert FirstUnhashableStep([row]) == None;
    assert FirstUnhashable([Str("a"), Dict(map[])]) == Some(Dict(map[]));
  }

  // ---------------------------------------------------------------------
  // The handoff from the journey mapper
  // ---------------------------------------------------------------------

  /**
   * As written, the plotter rejects every document the mapper writes: the
   * reviews sit under "mapped_reviews" and validate_data asks for
   * "reviews_by_journey_step".
   */
  lemma AsWrittenHandoffRejected(out: JourneyMapper.Output, stepsData: Value)
    ensures PlotData(JourneyMapper.PersistedAsWritten(out), stepsData) == Failure(MissingKeysError(["reviews_by_journey_step"]))
  {
    var doc := JourneyMapper.PersistedAsWritten(out);
    assert "reviews_by_journey_step" !in doc.fields;
    assert MissingKeys(doc.fields.Keys, ["reviews_by_journey_step"]) == ["reviews_by_journey_step"];
  }

  /**
   * With the reviews persisted under "reviews_by_journey_step", every
   * successful mapper run with at least one review feeds the plotter: given
   * a well-formed, non-empty taxonomy, it yields one average per step.
   */
  lemma HandoffAccepted(out: JourneyMapper.Output, stepsData: Value)
    requires out.mappedReviews != []
    requires forall i :: 0 <= i < |out.mappedReviews| ==>
      JourneyMapper.HasRequiredFields(out.mappedReviews[i]) && Hashable(out.mappedReviews[i]["step_name"])
    requires ValidateData(stepsData, ["journey_steps"]).None?
    requires RequiredSteps(stepsData.fields["journey_steps"]).Success?
    requires RequiredSteps(stepsData.fields["journey_steps"]).value != []
    requires forall i :: 0 <= i < |RequiredSteps(stepsData.fields["journey_steps"]).value| ==>
      Hashable(RequiredSteps(stepsData.fields["journey_steps"]).value[i])
    ensures PlotData(JourneyMapper.Persisted(out), stepsData).Success?
    ensures |PlotData(JourneyMapper.Persisted(out), stepsData).value| == |RequiredSteps(stepsData.fields["journey_steps"]).value|
  {
    var doc := JourneyMapper.Persisted(out);
    assert ValidateData(doc, ["reviews_by_journey_step"]).None?;
    var rows := ReviewRows(doc.fields["reviews_by_journey_step"]).value;
    assert rows == out.mappedReviews;
    assert "step_name" in rows[0];
    assert "step_name" in Columns(rows) && "rating" in Columns(rows);
  }

  /**
   * Every successful mapper run with at least one review, persisted under the
   * corrected key, is plotted against the same customer journey with one
   * average per journey step: the mapper's validation gives the plotter every
   * field, hashable step names in the reviews, and a non-empty taxonomy of
   * hashable names.
   */
  lemma MappedOutputPlots(summaryListing: seq<string>, journeyListing: seq<string>, journey: Value,
                          reply: JourneyMapper.Reply)
    requires JourneyMapper.MapReviews(summaryListing, journeyListing, journey, reply).Success?
    requires JourneyMapper.MapReviews(summaryListing, journeyListing, journey, reply).value.mappedReviews != []
    ensures journey.Dict? && "journey_steps" in journey.fields && journey.fields["journey_steps"].List?
    ensures var out := JourneyMapper.MapReviews(summaryListing, journeyListing, journey, reply).value;
      && PlotData(JourneyMapper.Persisted(out), journey).Success?
      && |PlotData(JourneyMapper.Persisted(out), journey).value| == |journey.fields["journey_steps"].items|
  {
    var out := JourneyMapper.MapReviews(summaryListing, journeyListing, journey, reply).value;
    JourneyMapper.MappedReviewsPreserved(summaryListing, journeyListing, journey, reply);
    MapperJourneyIsTaxonomy(journey);
    HandoffAccepted(out, journey);
  }

  /**
   * A customer journey the mapper accepts is a taxonomy the plotter accepts:
   * one hashable step name per journey step, and at least one step.
   */
  lemma MapperJourneyIsTaxonomy(journey: Value)
    requires JourneyMapper.StepNames(journey).Success?
    ensures ValidateData(journey, ["journey_steps"]).None?
    ensures journey.fields["journey_steps"].List?
    ensures RequiredSteps(journey.fields["journey_steps"]).Success?
    ensures |RequiredSteps(journey.fields["journey_steps"]).value| == |journey.fields["journey_steps"].items| > 0
    ensures forall i :: 0 <= i < |RequiredSteps(journey.fields["journey_steps"]).value| ==>
      Hashable(RequiredSteps(journey.fields["journey_steps"]).value[i])
  {
    var items := journey.fields["journey_steps"].items;
    forall i | 0 <= i < |items| ensures JourneyMapper.IsStep(items[i]) {
      assert items[i] in items;
    }
  }
}

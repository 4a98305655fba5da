/** The shopping classifier's data conversions and its evaluation of predictions
    against labels (true-positive and true-negative rates). */
module Shopping {
  import opened Wrappers

  /** The exceptions the conversions and the evaluation raise. */
  datatype Error = ValueError | ZeroDivisionError

  /** The month names as the data file spells them; June is written out in full. */
  const Months: seq<string> :=
    ["Jan", "Feb", "Mar", "Apr", "May", "June", "Jul", "Aug", "Sep", "Oct", "Nov", "Dec"]

  /** `list.index`: the position of the first occurrence of `x`, or ValueError. */
  function IndexOf(xs: seq<string>, x: string): (r: Result<nat, Error>)
    ensures r.Failure? <==> x !in xs
    ensures r.Failure? ==> r.error == ValueError
    ensures r.Success? ==> r.value < |xs| && xs[r.value] == x && x !in xs[..r.value]
  {
    if xs == [] then Failure(ValueError)
    else if xs[0] == x then Success(0)
    else
      match IndexOf(xs[1..], x)
      case Success(i) =>
        assert xs[..i + 1] == [xs[0]] + xs[1..][..i];
        Success(i + 1)
      case Failure(e) => Failure(e)
  }

  /** `month_to_int`: the month's index 0..11, or ValueError for any other string. */
  function MonthToInt(month: string): (r: Result<nat, Error>)
    ensures r.Success? <==> month in Months
    ensures r.Failure? ==> r.error == ValueError
    ensures r.Success? ==> r.value < 12 && Months[r.value] == month
  {
    IndexOf(Months, month)
  }

  /** June is spelled out in full and is month 5. */
  lemma JuneIsMonthFive()
    ensures MonthToInt("June") == Success(5)
  {
  }

  /** The three-letter form "Jun" is not a month name. */
  lemma JunIsRejected()
    ensures MonthToInt("Jun") == Failure(ValueError)
  {
  }

  /** Each listed name converts back to its own position: the conversion inverts the month list. */
  lemma {:induction false} MonthRoundTrip(i: nat)
    requires i < 12
    ensures MonthToInt(Months[i]) == Success(i)
  {
    var r := MonthToInt(Months[i]);
    if r.value != i {
      assert Months[r.value] == Months[i];
      assert |Months[r.value]| == |Months[i]|;
      MonthsDistinct(r.value, i);
    }
  }

  /** No two entries of the month list are spelled alike. */
  lemma MonthsDistinct(i: nat, j: nat)
    requires i < 12 && j < 12 && i != j
    ensures Months[i] != Months[j]
  {
  }

  /** `visitor_type_to_int`: 1 exactly for "Returning_Visitor", 0 for every other string. */
  function VisitorTypeToInt(visitorType: string): (r: int)
    ensures r == 1 <==> visitorType == "Returning_Visitor"
    ensures r == 0 <==> visitorType != "Returning_Visitor"
  {
    if visitorType == "Returning_Visitor" then 1 else 0
  }

  /** `text_to_int`: 1 exactly for "TRUE", 0 for every other string, "True" and "true" included. */
  function TextToInt(text: string): (r: int)
    ensures r == 1 <==> text == "TRUE"
    ensures r == 0 <==> text != "TRUE"
  {
    if text == "TRUE" then 1 else 0
  }

  // ---------------------------------------------------------------------------
  // evaluate

  /** The four counters of `evaluate`. */
  datatype Confusion = Confusion(truePositive: nat, falseNegative: nat, trueNegative: nat, falsePositive: nat)

  /** The counters after the first |labels| indices: a label of 1 is positive and is a true
      positive when the prediction is 1; any other label is negative and is a true negative
      when the prediction is 0. Every index bumps exactly one counter. */
  function Tally(labels: seq<int>, predictions: seq<int>): (c: Confusion)
    requires |predictions| >= |labels|
    ensures c.truePositive + c.falseNegative + c.trueNegative + c.falsePositive == |labels|
  {
    if labels == [] then Confusion(0, 0, 0, 0)
    else
      var n := |labels| - 1;
      var c := Tally(labels[..n], predictions);
      if labels[n] == 1 then
        if predictions[n] == 1 then c.(truePositive := c.truePositive + 1)
        else c.(falseNegative := c.falseNegative + 1)
      else
        if predictions[n] == 0 then c.(trueNegative := c.trueNegative + 1)
        else c.(falsePositive := c.falsePositive + 1)
  }

  /** The number of labels equal to 1. */
  function Positives(labels: seq<int>): (n: nat)
    ensures n <= |labels|
  {
    if labels == [] then 0
    else Positives(labels[..|labels| - 1]) + (if labels[|labels| - 1] == 1 then 1 else 0)
  }

  /** Every index lands in exactly one counter: positives split into true positives and
      false negatives, the other labels into true negatives and false positives. */
  lemma {:induction false} TallyPartitions(labels: seq<int>, predictions: seq<int>)
    requires |predictions| >= |labels|
    ensures var c := Tally(labels, predictions);
      c.truePositive + c.falseNegative == Positives(labels) &&
      c.trueNegative + c.falsePositive == |labels| - Positives(labels)
  {
    if labels != [] {
      TallyPartitions(labels[..|labels| - 1], predictions);
    }
  }

  /** Perfect predictions: every positive is a true positive and every 0 a true negative. */
  lemma {:induction false} TallyPerfect(labels: seq<int>)
    requires forall i :: 0 <= i < |labels| ==> labels[i] == 0 || labels[i] == 1
    ensures var c := Tally(labels, labels);
      c.falseNegative == 0 && c.falsePositive == 0 &&
      c.truePositive == Positives(labels) && c.trueNegative == |labels| - Positives(labels)
  {
    if labels != [] {
      var n := |labels| - 1;
      TallyPerfect(labels[..n]);
      TallyPrefix(labels[..n], labels);
    }
  }

  /** Tally looks only at the predictions at indices below |labels|. */
  lemma {:induction false} TallyPrefix(labels: seq<int>, predictions: seq<int>)
    requires |predictions| >= |labels|
    ensures Tally(labels, predictions) == Tally(labels, predictions[..|labels|])
  {
    if labels != [] {
      var n := |labels| - 1;
      TallyPrefix(labels[..n], predictions);
      TallyPrefix(labels[..n], predictions[..|labels|]);
      assert predictions[..|labels|][..n] == predictions[..n];
    }
  }

  /** Counting one more index bumps exactly the counter that index falls into. */
  lemma TallyStep(labels: seq<int>, predictions: seq<int>, i: nat)
    requires i < |labels| <= |predictions|
    ensures var c := Tally(labels[..i], predictions);
      Tally(labels[..i + 1], predictions) ==
        if labels[i] == 1 then
          if predictions[i] == 1 then c.(truePositive := c.truePositive + 1)
          else c.(falseNegative := c.falseNegative + 1)
        else
          if predictions[i] == 0 then c.(trueNegative := c.trueNegative + 1)
          else c.(falsePositive := c.falsePositive + 1)
  {
    assert labels[..i + 1][..i] == labels[..i];
  }

  /** The two rates `evaluate` returns. */
  datatype Rates = Rates(sensitivity: real, specificity: real)

  /** `part / whole` as an exact ratio; a proportion of a nonempty whole lies in [0, 1]. */
  function Rate(part: nat, whole: nat): (r: real)
    requires part <= whole && whole > 0
    ensures 0.0 <= r <= 1.0
  {
    part as real / whole as real
  }

  /** `evaluate`: counts the four outcomes index by index, then divides. Raises
      ZeroDivisionError when no label is 1 or when every label is 1. */
  method Evaluate(labels: seq<int>, predictions: seq<int>) returns (r: Result<Rates, Error>)
    requires |predictions| >= |labels|
    ensures r.Failure? <==> Positives(labels) == 0 || Positives(labels) == |labels|
    ensures r.Failure? ==> r.error == ZeroDivisionError
    ensures r.Success? ==>
              var c := Tally(labels, predictions);
              c.truePositive <= Positives(labels) && c.trueNegative <= |labels| - Positives(labels) &&
              r.value.sensitivity == Rate(c.truePositive, Positives(labels)) &&
              r.value.specificity == Rate(c.trueNegative, |labels| - Positives(labels))
    ensures r.Success? ==>
              0.0 <= r.value.sensitivity <= 1.0 && 0.0 <= r.value.specificity <= 1.0
  {
    var truePositive, falseNegative, trueNegative, falsePositive := 0, 0, 0, 0;
    for i := 0 to |labels|
      invariant Confusion(truePositive, falseNegative, trueNegative, falsePositive)
                == Tally(labels[..i], predictions)
    {
      TallyStep(labels, predictions, i);
      if labels[i] == 1 {
        if predictions[i] == 1 {
          truePositive := truePositive + 1;
        } else {
          falseNegative := falseNegative + 1;
        }
      } else {
        if predictions[i] == 0 {
          trueNegative := trueNegative + 1;
        } else {
          falsePositive := falsePositive + 1;
        }
      }
    }
    assert labels[..|labels|] == labels;
    TallyPartitions(labels, predictions);
    if truePositive + falseNegative == 0 {
      return Failure(ZeroDivisionError);
    }
    var sensitivity := Rate(truePositive, truePositive + falseNegative);
    if trueNegative + falsePositive == 0 {
      return Failure(ZeroDivisionError);
    }
    var specificity := Rate(trueNegative, trueNegative + falsePositive);
    return Success(Rates(sensitivity, specificity));
  }
}

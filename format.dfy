/**
 * The status line: `formatArrival`, which turns an arrival time into a relative text, and
 * `formatOutput`, which assembles "<stop name>: <arrivals or No trains>[; <N> alerts!]".
 *
 * `StatusLine` states what the line is; the method `FormatOutput` builds it the way the
 * program does, by appending to a string in a loop, and is proved to produce `StatusLine`.
 */
module Format {
  import opened Wrappers
  import opened Text
  import opened Seqs
  import opened Response

  const Separator: string := ", "
  const NoTrains: string := "No trains"

  // ---------------------------------------------------------------------------
  // formatArrival

  /** The text for an arrival at `arr` seen at `now`, both in whole seconds. */
  function ArrivalText(now: int, arr: int): string {
    if arr < now then ""
    else if arr - now < 60 then "arriving now"
    else if arr - now < 120 then "1 minute"
    else if arr - now < 3600 then Decimal((arr - now) / 60) + " minutes"
    else "over an hour"
  }

  predicate IsLower(c: char) {
    'a' <= c <= 'z'
  }

  /** A non-empty arrival text begins with `a`, `o` or a digit and ends with a lower-case letter. */
  lemma ArrivalTextShape(now: int, arr: int)
    requires ArrivalText(now, arr) != ""
    ensures var t := ArrivalText(now, arr);
            && (t[0] == 'a' || t[0] == 'o' || IsDigit(t[0]))
            && IsLower(t[|t| - 1])
  {
    var d := arr - now;
    if 120 <= d < 3600 {
      var t := Decimal(d / 60) + " minutes";
      assert t[0] == Decimal(d / 60)[0];
      assert t[|t| - 1] == 's';
    }
  }

  /** Cutting a common ending off two texts. */
  lemma SameEnding(a: string, b: string, c: string)
    requires a + c == b + c
    ensures a == b
  {
    assert a == (a + c)[..|a|];
    assert b == (b + c)[..|b|];
  }

  /**
   * The five bands of `formatArrival`, each an if-and-only-if over `d = arr - now`: the
   * empty text for a past arrival, "arriving now" below a minute, "1 minute" below two,
   * "N minutes" below an hour with N the whole minutes (between 2 and 59), "over an hour"
   * from an hour on.
   */
  lemma ArrivalBands(now: int, arr: int, n: nat)
    ensures ArrivalText(now, arr) == "" <==> arr - now < 0
    ensures ArrivalText(now, arr) == "arriving now" <==> 0 <= arr - now < 60
    ensures ArrivalText(now, arr) == "1 minute" <==> 60 <= arr - now < 120
    ensures ArrivalText(now, arr) == Decimal(n) + " minutes" <==> 120 <= arr - now < 3600 && n == (arr - now) / 60
    ensures ArrivalText(now, arr) == "over an hour" <==> 3600 <= arr - now
    ensures 120 <= arr - now < 3600 ==> 2 <= (arr - now) / 60 <= 59
  {
    var d := arr - now;
    var t := ArrivalText(now, arr);
    var m := Decimal(n) + " minutes";
    assert m[0] == Decimal(n)[0];
    assert |m| >= 9;
    if 120 <= d < 3600 {
      assert t[0] == Decimal(d / 60)[0];
      if t == m {
        SameEnding(Decimal(d / 60), Decimal(n), " minutes");
        DecimalInjective(d / 60, n);
      }
    }
  }

  // ---------------------------------------------------------------------------
  // The arrival portion

  /** The arrival text of each prediction, in order. */
  function Texts(now: int, preds: seq<Prediction>): (ts: seq<string>)
    ensures |ts| == |preds|
  {
    seq(|preds|, i requires 0 <= i < |preds| => ArrivalText(now, preds[i].arrival))
  }

  predicate IsText(t: string) {
    t != ""
  }

  /** The texts that say something: past arrivals drop out. */
  function ShownTexts(now: int, preds: seq<Prediction>): seq<string> {
    Filter(Texts(now, preds), IsText)
  }

  /** The shown texts of `preds`, separated by ", ". */
  function ArrivalPortion(now: int, preds: seq<Prediction>): string {
    Join(ShownTexts(now, preds), Separator)
  }

  lemma TextsAppend(now: int, a: seq<Prediction>, b: seq<Prediction>)
    ensures Texts(now, a + b) == Texts(now, a) + Texts(now, b)
  {
  }

  /** Each shown text is the non-empty arrival text of a prediction. */
  lemma ShownTextsAreArrivals(now: int, preds: seq<Prediction>, t: string)
    requires t in ShownTexts(now, preds)
    ensures t != "" && exists i :: 0 <= i < |preds| && t == ArrivalText(now, preds[i].arrival)
  {
    assert t in Texts(now, preds);
    var i :| 0 <= i < |preds| && Texts(now, preds)[i] == t;
  }

  /** The shown texts of a concatenation are those of its parts. */
  lemma ShownTextsAppend(now: int, a: seq<Prediction>, b: seq<Prediction>)
    ensures ShownTexts(now, a + b) == ShownTexts(now, a) + ShownTexts(now, b)
  {
    TextsAppend(now, a, b);
    FilterAppend(Texts(now, a), Texts(now, b), IsText);
  }

  /** One prediction shows its text, unless that text is empty. */
  lemma ShownTextsSingle(now: int, p: Prediction)
    ensures ShownTexts(now, [p]) == if IsText(ArrivalText(now, p.arrival)) then [ArrivalText(now, p.arrival)] else []
  {
    var t := ArrivalText(now, p.arrival);
    assert Texts(now, [p]) == [t];
    assert Filter([t], IsText) == (if IsText(t) then [t] else []) + Filter([t][1..], IsText);
  }

  /**
   * A past arrival contributes nothing to the arrival portion wherever it stands: it adds
   * no text and no separator.
   */
  lemma PastArrivalAddsNothing(now: int, a: seq<Prediction>, p: Prediction, b: seq<Prediction>)
    requires p.arrival < now
    ensures ArrivalPortion(now, a + [p] + b) == ArrivalPortion(now, a + b)
  {
    ShownTextsAppend(now, a + [p], b);
    ShownTextsAppend(now, a, [p]);
    ShownTextsAppend(now, a, b);
    ShownTextsSingle(now, p);
    assert ShownTexts(now, a) + [] == ShownTexts(now, a);
  }

  // ---------------------------------------------------------------------------
  // The status line

  /** "; N alerts!" for a positive count N, nothing otherwise. */
  function AlertSuffix(n: nat): string {
    if n > 0 then "; " + Decimal(n) + " alerts!" else ""
  }

  function Prefix(body: Body): string
    requires HasStop(body.included)
  {
    FirstStopName(body.included) + ": "
  }

  /**
   * The status line of a response: the first stop's name and ": ", then "No trains" when
   * no prediction is eligible or else the arrival portion of the eligible predictions,
   * then the alert suffix.
   */
  function StatusLine(body: Body, pref: StationPref, now: int): string
    requires HasStop(body.included)
  {
    var e := Eligible(body, pref);
    Prefix(body)
      + (if |e| == 0 then NoTrains else ArrivalPortion(now, e))
      + AlertSuffix(|Alerts(body.included)|)
  }

  /** JavaScript's `s.slice(-2)`: the last two characters, or all of a shorter string. */
  function LastTwo(s: string): string {
    if |s| >= 2 then s[|s| - 2..] else s
  }

  /**
   * The append of one arrival text in `formatOutput`: nothing for an empty text, the text
   * alone while `result` still ends in ": ", otherwise ", " and the text.
   */
  function CommaRule(result: string, fromNow: string): string {
    result + (if fromNow != "" && LastTwo(result) != ": " then ", " + fromNow else fromNow)
  }

  /**
   * The comma rule extends a join of texts: after the prefix "…: " the first text comes
   * without a separator and every later one with ", ", provided no text ends in a space.
   */
  lemma CommaRuleJoins(stop: string, parts: seq<string>, t: string, result: string)
    requires result == stop + ": " + Join(parts, Separator)
    requires parts == [] || result[|result| - 1] != ' '
    requires t == "" || t[|t| - 1] != ' '
    ensures CommaRule(result, t) == stop + ": " + Join(parts + (if t != "" then [t] else []), Separator)
    ensures parts + (if t != "" then [t] else []) == [] || CommaRule(result, t)[|CommaRule(result, t)| - 1] != ' '
  {
    if t == "" {
      assert parts + [] == parts;
    } else {
      JoinSnoc(parts, t, Separator);
      if parts == [] {
        assert result == stop + ": ";
        assert LastTwo(result) == ": ";
      } else {
        assert LastTwo(result)[1] == result[|result| - 1];
      }
    }
  }

  /** One round of the loop of `formatOutput` extends the arrival portion by one prediction. */
  lemma AppendStep(stop: string, now: int, ps: seq<Prediction>, i: nat, result: string)
    requires i < |ps|
    requires result == stop + ": " + ArrivalPortion(now, ps[..i])
    requires ShownTexts(now, ps[..i]) == [] || result[|result| - 1] != ' '
    ensures var next := CommaRule(result, ArrivalText(now, ps[i].arrival));
            && next == stop + ": " + ArrivalPortion(now, ps[..i + 1])
            && (ShownTexts(now, ps[..i + 1]) == [] || next[|next| - 1] != ' ')
  {
    var t := ArrivalText(now, ps[i].arrival);
    assert ps[..i + 1] == ps[..i] + [ps[i]];
    ShownTextsAppend(now, ps[..i], [ps[i]]);
    ShownTextsSingle(now, ps[i]);
    if t != "" {
      ArrivalTextShape(now, ps[i].arrival);
    }
    CommaRuleJoins(stop, ShownTexts(now, ps[..i]), t, result);
  }

  /**
   * The loop of `formatOutput`: starting from `stop + ": "`, appends the arrival text of
   * each prediction with a ", " before it unless the line still ends in ": ".
   */
  method AppendArrivals(stop: string, now: int, predictions: seq<Prediction>) returns (result: string)
    ensures result == stop + ": " + ArrivalPortion(now, predictions)
  {
    result := stop + ": ";
    var i := 0;
    while i < |predictions|
      invariant 0 <= i <= |predictions|
      invariant result == stop + ": " + ArrivalPortion(now, predictions[..i])
      invariant ShownTexts(now, predictions[..i]) == [] || result[|result| - 1] != ' '
    {
      var fromNow := ArrivalText(now, predictions[i].arrival);
      AppendStep(stop, now, predictions, i, result);
      result := CommaRule(result, fromNow);
      i := i + 1;
    }
    assert predictions[..i] == predictions;
  }

  /**
   * `formatOutput`: the first stop's name and ": ", the arrivals of the eligible
   * predictions, "No trains" when there are none, and the count of alerts when there are any.
   */
  method FormatOutput(body: Body, pref: StationPref, now: int) returns (result: string)
    requires HasStop(body.included)
    ensures result == StatusLine(body, pref, now)
  {
    var stop := FirstStopName(body.included);
    var trips := TripIds(body.included, pref);
    var predictions := Take(ForTrips(body.data, trips), MaxShown);
    result := AppendArrivals(stop, now, predictions);
    assert predictions == Eligible(body, pref);
    if |predictions| == 0 {
      assert result == stop + ": ";
      result := result + NoTrains;
    }
    ghost var line := result;
    var alerts := Alerts(body.included);
    if |alerts| > 0 {
      result := result + "; " + Decimal(|alerts|) + " alerts!";
      assert result == line + AlertSuffix(|alerts|);
    }
  }

  // ---------------------------------------------------------------------------
  // Properties of the status line

  /** The line begins with the first stop's name and ": ". */
  lemma StatusLineStartsWithStop(body: Body, pref: StationPref, now: int)
    requires HasStop(body.included)
    ensures StartsWith(StatusLine(body, pref, now), FirstStopName(body.included) + ": ")
  {
  }

  /** The arrival portion is empty or begins with an arrival text and ends with a letter. */
  lemma ArrivalPortionShape(now: int, preds: seq<Prediction>)
    ensures var a := ArrivalPortion(now, preds);
            a == "" || ((a[0] == 'a' || a[0] == 'o' || IsDigit(a[0])) && IsLower(a[|a| - 1]))
  {
    var parts := ShownTexts(now, preds);
    if parts != [] {
      JoinEnds(parts, Separator);
      ShownTextsAreArrivals(now, preds, parts[0]);
      ShownTextsAreArrivals(now, preds, parts[|parts| - 1]);
      var i :| 0 <= i < |preds| && parts[0] == ArrivalText(now, preds[i].arrival);
      var j :| 0 <= j < |preds| && parts[|parts| - 1] == ArrivalText(now, preds[j].arrival);
      ArrivalTextShape(now, preds[i].arrival);
      ArrivalTextShape(now, preds[j].arrival);
      var a := ArrivalPortion(now, preds);
      assert a[0] == a[..|parts[0]|][0];
      assert a[|a| - 1] == a[|a| - |parts[|parts| - 1]|..][|parts[|parts| - 1]| - 1];
    }
  }

  /** Dropping the front of a concatenation of three texts. */
  lemma DropPrefix(p: string, m: string, t: string)
    ensures (p + m + t)[|p|..] == m + t
  {
  }

  /** A text that is empty or does not begin with "N" does not begin with "No trains". */
  lemma NotNoTrains(x: string)
    requires x == "" || x[0] != 'N'
    ensures !StartsWith(x, NoTrains)
  {
    if |NoTrains| <= |x| {
      assert x[..|NoTrains|][0] == x[0];
    }
  }

  /** "No trains" follows the prefix exactly when no prediction is eligible. */
  lemma NoTrainsIff(body: Body, pref: StationPref, now: int)
    requires HasStop(body.included)
    ensures var line := StatusLine(body, pref, now);
            var rest := line[|Prefix(body)|..];
            StartsWith(rest, NoTrains) <==> |Eligible(body, pref)| == 0
  {
    var e := Eligible(body, pref);
    var suffix := AlertSuffix(|Alerts(body.included)|);
    var middle := if |e| == 0 then NoTrains else ArrivalPortion(now, e);
    var rest := middle + suffix;
    DropPrefix(Prefix(body), middle, suffix);
    if |e| == 0 {
      assert rest[..|NoTrains|] == NoTrains;
    } else {
      ArrivalPortionShape(now, e);
      if middle != "" {
        assert rest[0] == middle[0];
      } else if suffix != "" {
        assert rest[0] == suffix[0] == ';';
      } else {
        assert rest == "";
      }
      NotNoTrains(rest);
    }
  }

  /** When predictions are eligible but all of them are past, nothing follows ": " but the alerts. */
  lemma AllPastShowsNothing(body: Body, pref: StationPref, now: int)
    requires HasStop(body.included)
    requires |Eligible(body, pref)| > 0
    requires forall k :: 0 <= k < |Eligible(body, pref)| ==> Eligible(body, pref)[k].arrival < now
    ensures StatusLine(body, pref, now) == Prefix(body) + AlertSuffix(|Alerts(body.included)|)
  {
    var e := Eligible(body, pref);
    if ShownTexts(now, e) != [] {
      var t := ShownTexts(now, e)[0];
      ShownTextsAreArrivals(now, e, t);
    }
  }

  /** At most three arrival texts appear, one per eligible prediction that is not past. */
  lemma AtMostThreeTexts(body: Body, pref: StationPref, now: int)
    ensures |ShownTexts(now, Eligible(body, pref))| <= MaxShown
  {
    var _ := EligibleSpec(body, pref);
  }

  /**
   * The alert suffix: with N counted alerts, N > 0, the line ends in "; N alerts!"; the
   * line ends in "!" exactly when N > 0.
   */
  lemma AlertSuffixIff(body: Body, pref: StationPref, now: int)
    requires HasStop(body.included)
    ensures var line := StatusLine(body, pref, now);
            var n := |Alerts(body.included)|;
            && (n > 0 ==> line[|line| - |AlertSuffix(n)|..] == "; " + Decimal(n) + " alerts!")
            && (line[|line| - 1] == '!' <==> n > 0)
  {
    var e := Eligible(body, pref);
    var n := |Alerts(body.included)|;
    var line := StatusLine(body, pref, now);
    var middle := if |e| == 0 then NoTrains else ArrivalPortion(now, e);
    assert line == Prefix(body) + middle + AlertSuffix(n);
    if n == 0 {
      ArrivalPortionShape(now, e);
      if middle == "" {
        assert line == Prefix(body);
      } else {
        assert line[|line| - 1] == middle[|middle| - 1];
      }
    } else {
      var sfx := AlertSuffix(n);
      assert line[|line| - 1] == sfx[|sfx| - 1];
    }
  }

  // ---------------------------------------------------------------------------
  // Worked examples: a stop "Foo Station" and one trip, no headsign filter

  const FooName: string := "Foo Station"
  const FooStop: Resource := Stop(FooName)
  const FooTrip: Resource := Trip("t1", "Alewife")
  const AnyPref: StationPref := StationPref("place-foo", None)

  /** Alerts hold no trip ids. */
  lemma NoTripsAmongAlerts(alerts: seq<Resource>, pref: StationPref)
    requires forall k :: 0 <= k < |alerts| ==> alerts[k].Alert?
    ensures TripIds(alerts, pref) == []
    decreases |alerts|
  {
    if |alerts| > 0 {
      NoTripsAmongAlerts(alerts[1..], pref);
    }
  }

  /** A response naming Foo Station first, then its one trip and `alerts`. */
  function Foo(data: seq<Prediction>, alerts: seq<Resource>): (b: Body)
    requires forall k :: 0 <= k < |alerts| ==> alerts[k].Alert?
    ensures HasStop(b.included) && FirstStopName(b.included) == FooName
    ensures TripIds(b.included, AnyPref) == ["t1"]
  {
    var included := [FooStop] + ([FooTrip] + alerts);
    assert included[0].Stop?;
    NoTripsAmongAlerts(alerts, AnyPref);
    TripIdsCons(FooTrip, alerts, AnyPref);
    TripIdsCons(FooStop, [FooTrip] + alerts, AnyPref);
    Body(data, included, false, false)
  }

  /** Keeping the predictions for trip "t1" when all of them are for it. */
  lemma AllForT1(data: seq<Prediction>)
    requires forall k :: 0 <= k < |data| ==> data[k].tripId == "t1"
    ensures ForTrips(data, ["t1"]) == data
    decreases |data|
  {
    if |data| > 0 {
      AllForT1(data[1..]);
      assert data == [data[0]] + data[1..];
      FilterCons(data[0], data[1..], KeepsTrip(["t1"]));
    }
  }

  /** Foo Station's line once its eligible predictions, shown texts and alerts are known. */
  lemma FooLine(body: Body, now: int, parts: seq<string>, n: nat)
    requires HasStop(body.included) && FirstStopName(body.included) == FooName
    requires Eligible(body, AnyPref) == body.data && |body.data| > 0
    requires ShownTexts(now, body.data) == parts
    requires |Alerts(body.included)| == n
    ensures StatusLine(body, AnyPref, now) == FooName + ": " + Join(parts, Separator) + AlertSuffix(n)
  {
    assert ArrivalPortion(now, Eligible(body, AnyPref)) == Join(parts, Separator);
  }

  /** Foo Station's included objects with no alerts: nothing to count. */
  lemma FooNoAlerts(data: seq<Prediction>)
    ensures Alerts(Foo(data, []).included) == []
  {
    assert Foo(data, []).included == [FooStop] + ([FooTrip] + []);
    FilterCons(FooStop, [FooTrip], Counted);
    FilterCons(FooTrip, [], Counted);
  }

  /** The shown texts of a single prediction with a text. */
  lemma OneText(now: int, p: Prediction, t: string)
    requires ArrivalText(now, p.arrival) == t && t != ""
    ensures ShownTexts(now, [p]) == [t]
  {
    ShownTextsSingle(now, p);
  }

  /** One arrival 100 seconds away. */
  lemma OneMinuteExample(now: int)
    ensures StatusLine(Foo([Prediction("t1", now + 100)], []), AnyPref, now) == FooName + ": " + "1 minute"
  {
    var body := Foo([Prediction("t1", now + 100)], []);
    AllForT1(body.data);
    OneText(now, Prediction("t1", now + 100), "1 minute");
    FooNoAlerts(body.data);
    FooLine(body, now, ["1 minute"], 0);
  }

  const FooAlerts: seq<Resource> := [Alert("ACCIDENT"), Alert(Maintenance), Alert("DELAY"), Alert("WEATHER")]

  /** Of Foo Station's four alerts, three count: the maintenance one does not. */
  lemma FooAlertCount(data: seq<Prediction>)
    ensures |Alerts(Foo(data, FooAlerts).included)| == 3
  {
    var a1, a2, a3, a4 := Alert("ACCIDENT"), Alert(Maintenance), Alert("DELAY"), Alert("WEATHER");
    var a := [a1] + ([a2] + ([a3] + [a4]));
    assert a == FooAlerts;
    assert Foo(data, FooAlerts).included == [FooStop] + ([FooTrip] + a);
    FilterConsLength(FooStop, [FooTrip] + a, Counted);
    FilterConsLength(FooTrip, a, Counted);
    FilterConsLength(a1, [a2] + ([a3] + [a4]), Counted);
    FilterConsLength(a2, [a3] + [a4], Counted);
    FilterConsLength(a3, [a4], Counted);
    FilterConsLength(a4, [], Counted);
  }

  /** The same with three alerts that count and one for maintenance that does not. */
  lemma AlertsExample(now: int)
    ensures StatusLine(Foo([Prediction("t1", now + 100)], FooAlerts), AnyPref, now)
            == FooName + ": " + "1 minute" + "; " + "3" + " alerts!"
  {
    var body := Foo([Prediction("t1", now + 100)], FooAlerts);
    AllForT1(body.data);
    OneText(now, Prediction("t1", now + 100), "1 minute");
    FooAlertCount(body.data);
    assert Decimal(3) == "3";
    FooLine(body, now, ["1 minute"], 3);
  }

  /** A past arrival before a coming one leaves no comma behind. */
  lemma PastArrivalExample(now: int)
    ensures StatusLine(Foo([Prediction("t1", now - 100), Prediction("t1", now + 100)], []), AnyPref, now)
            == FooName + ": " + "1 minute"
  {
    var past, soon := Prediction("t1", now - 100), Prediction("t1", now + 100);
    var body := Foo([past, soon], []);
    AllForT1(body.data);
    assert ShownTexts(now, [past] + [soon]) == ["1 minute"] by {
      ShownTextsAppend(now, [past], [soon]);
      ShownTextsSingle(now, past);
      OneText(now, soon, "1 minute");
    }
    assert body.data == [past] + [soon];
    FooNoAlerts(body.data);
    FooLine(body, now, ["1 minute"], 0);
  }

  /** A past arrival after the coming one, the order in which the program's tests list them. */
  lemma PastAfterComingExample(now: int)
    ensures StatusLine(Foo([Prediction("t1", now + 100), Prediction("t1", now - 100)], []), AnyPref, now)
            == FooName + ": " + "1 minute"
  {
    var soon, past := Prediction("t1", now + 100), Prediction("t1", now - 100);
    var body := Foo([soon, past], []);
    AllForT1(body.data);
    assert ShownTexts(now, [soon] + [past] + []) == ["1 minute"] by {
      PastArrivalAddsNothing(now, [soon], past, []);
      assert [soon] + [] == [soon];
      OneText(now, soon, "1 minute");
    }
    assert body.data == [soon] + [past] + [];
    FooNoAlerts(body.data);
    FooLine(body, now, ["1 minute"], 0);
  }

  /** The texts of three arrivals 2, 200 and 3800 seconds away. */
  lemma BandsShown(now: int)
    ensures ShownTexts(now, ([Prediction("t1", now + 2)] + [Prediction("t1", now + 200)]) + [Prediction("t1", now + 3800)])
            == (["arriving now"] + ["3 minutes"]) + ["over an hour"]
  {
    var p1, p2, p3 := Prediction("t1", now + 2), Prediction("t1", now + 200), Prediction("t1", now + 3800);
    assert ArrivalText(now, p2.arrival) == "3 minutes" by {
      assert (now + 200 - now) / 60 == 3;
      assert Decimal(3) == "3";
    }
    ShownTextsAppend(now, [p1] + [p2], [p3]);
    ShownTextsAppend(now, [p1], [p2]);
    OneText(now, p1, "arriving now");
    OneText(now, p2, "3 minutes");
    OneText(now, p3, "over an hour");
  }

  /** Three arrivals, one in each of three bands. */
  lemma BandsExample(now: int)
    ensures StatusLine(Foo([Prediction("t1", now + 2), Prediction("t1", now + 200), Prediction("t1", now + 3800)], []),
                       AnyPref, now)
            == FooName + ": " + ("arriving now" + ", " + "3 minutes" + ", " + "over an hour")
  {
    var p1, p2, p3 := Prediction("t1", now + 2), Prediction("t1", now + 200), Prediction("t1", now + 3800);
    var body := Foo([p1, p2, p3], []);
    AllForT1(body.data);
    var parts := (["arriving now"] + ["3 minutes"]) + ["over an hour"];
    assert body.data == ([p1] + [p2]) + [p3];
    BandsShown(now);
    var j := Join(parts, Separator);
    assert j == "arriving now" + ", " + "3 minutes" + ", " + "over an hour" by {
      JoinSnoc(["arriving now"] + ["3 minutes"], "over an hour", Separator);
      JoinSnoc(["arriving now"], "3 minutes", Separator);
    }
    FooNoAlerts(body.data);
    FooLine(body, now, parts, 0);
    assert FooName + ": " + j + AlertSuffix(0) == FooName + ": " + j;
  }

  /** Eligible predictions that are all past leave the line at "Foo Station: ". */
  lemma AllPastExample(now: int)
    ensures StatusLine(Foo([Prediction("t1", now - 30)], []), AnyPref, now) == FooName + ": "
  {
    var body := Foo([Prediction("t1", now - 30)], []);
    AllForT1(body.data);
    ShownTextsSingle(now, Prediction("t1", now - 30));
    FooNoAlerts(body.data);
    FooLine(body, now, [], 0);
  }

  /** All eligible arrivals past, with alerts: only the alert suffix follows the stop. */
  lemma AllPastAlertsExample(now: int)
    ensures StatusLine(Foo([Prediction("t1", now - 30)], FooAlerts), AnyPref, now)
            == FooName + ": " + "; " + "3" + " alerts!"
  {
    var body := Foo([Prediction("t1", now - 30)], FooAlerts);
    AllForT1(body.data);
    ShownTextsSingle(now, Prediction("t1", now - 30));
    FooAlertCount(body.data);
    assert Decimal(3) == "3";
    FooLine(body, now, [], 3);
  }

  /** Predictions for trips that were not included give "No trains". */
  lemma NoTrainsExample(now: int)
    ensures StatusLine(Foo([Prediction("t2", now + 100)], []), AnyPref, now) == FooName + ": " + NoTrains
  {
    var body := Foo([Prediction("t2", now + 100)], []);
    assert Eligible(body, AnyPref) == [] by {
      assert body.data == [body.data[0]] + [];
      FilterCons(body.data[0], [], KeepsTrip(["t1"]));
    }
    FooNoAlerts(body.data);
  }
}

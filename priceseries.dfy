/**
  Turning the provider's batch payload of intraday bars into the flat stream of minute records
  the loader copies: `aggregate` stamps one ticker's bars, `iter_intraday_api` walks the payload.
 */
module PriceSeries {
  import opened Wrappers
  import opened PyValues
  import opened Dates
  import opened MinuteRecords
  import opened References
  import opened Seqs

  /** The number of rows of the `security_id` column `aggregate` builds: one per minute of a 6.5-hour session. */
  const SessionMinutes: nat := 390

  /** `str(strptime(date + " " + minute, "%Y-%m-%d %H:%M"))`; ValueError for a stamp that does not parse. */
  function DateTimeOf(b: Bar): (r: Result<string, PyError>)
    ensures r.Ok? <==> ParseStamp(b.date + " " + b.minute).Some?
    ensures r.Ok? ==> r.value == b.date + " " + b.minute + ":00"
    ensures r.Err? ==> r.error == ValueError
  {
    var t := ParseStamp(b.date + " " + b.minute);
    if t.None? then Err(ValueError)
    else
      RenderParseStamp(b.date + " " + b.minute);
      Ok(Render(t.value))
  }

  /** The `dt` list of `aggregate`: every bar's datetime, or ValueError at the first bar that does not parse. */
  function DateTimes(bars: seq<Bar>): (r: Result<seq<string>, PyError>)
    ensures r.Ok? <==> forall i :: 0 <= i < |bars| ==> DateTimeOf(bars[i]).Ok?
    ensures r.Ok? ==> |r.value| == |bars| && forall i :: 0 <= i < |bars| ==> r.value[i] == DateTimeOf(bars[i]).value
    ensures r.Err? ==> r.error == ValueError
  {
    CollectAll(bars, DateTimeOf)
  }

  /** One bar that does not parse makes the whole datetime list fail with ValueError. */
  lemma DateTimesFail(bars: seq<Bar>, i: nat)
    requires i < |bars| && DateTimeOf(bars[i]).Err?
    ensures DateTimes(bars) == Err(ValueError) && DateTimeOf(bars[i]) == Err(ValueError)
  {
  }

  /** When every bar parses, the datetime list is the bars' datetimes in order. */
  lemma DateTimesAll(bars: seq<Bar>, dt: seq<string>)
    requires |dt| == |bars| && forall k :: 0 <= k < |bars| ==> DateTimeOf(bars[k]) == Ok(dt[k])
    ensures DateTimes(bars) == Ok(dt)
  {
    assert DateTimes(bars).value == dt;
  }

  /** A bar as a record of `aggregate`'s output: `date` and `minute` replaced by `datetime`, `security_id` added. */
  function Stamp(b: Bar, secId: int, datetime: string): Minute {
    Minute(Int(secId), Str(datetime), b.marketOpen, b.marketHigh, b.marketLow, b.marketClose,
           b.marketVolume, b.marketNotional, b.marketNumberOfTrades)
  }

  /** What `aggregate(price_json, sec_id)` returns: the stamped records, or the ValueError it raises. */
  function Aggregated(bars: seq<Bar>, secId: int): (r: Result<seq<Minute>, PyError>)
    ensures r.Ok? <==> |bars| == SessionMinutes && forall i :: 0 <= i < |bars| ==> DateTimeOf(bars[i]).Ok?
    ensures r.Err? ==> r.error == ValueError
    ensures r.Ok? ==> |r.value| == |bars| &&
                      forall i :: 0 <= i < |bars| ==>
                        r.value[i] == Stamp(bars[i], secId, bars[i].date + " " + bars[i].minute + ":00")
  {
    var dt := DateTimes(bars);
    if dt.Err? then Err(dt.error)
    else if |bars| != SessionMinutes then Err(ValueError)
    else Ok(seq(|bars|, i requires 0 <= i < |bars| => Stamp(bars[i], secId, dt.value[i])))
  }

  /**
    `aggregate`: build the datetime list bar by bar, then attach it and a `security_id` column of
    exactly 390 rows (ValueError when the bar count differs).
   */
  method Aggregate(priceJson: seq<Bar>, secId: int) returns (r: Result<seq<Minute>, PyError>)
    ensures r == Aggregated(priceJson, secId)
  {
    var dt: seq<string> := [];
    for i := 0 to |priceJson|
      invariant |dt| == i
      invariant forall k :: 0 <= k < i ==> DateTimeOf(priceJson[k]) == Ok(dt[k])
    {
      var stamp := DateTimeOf(priceJson[i]);
      if stamp.Err? {
        DateTimesFail(priceJson, i);
        return Err(stamp.error);
      }
      ghost var before := dt;
      dt := dt + [stamp.value];
      assert forall k :: 0 <= k < i ==> dt[k] == before[k];
    }
    DateTimesAll(priceJson, dt);
    if |priceJson| != SessionMinutes {
      return Err(ValueError);
    }
    r := Ok(seq(|priceJson|, i requires 0 <= i < |priceJson| => Stamp(priceJson[i], secId, dt[i])));
  }

  /** One member of the batch payload: a ticker and its `intraday-prices` list (None for JSON null). */
  datatype Entry = Entry(ticker: string, intradayPrices: Option<seq<Bar>>)

  /** The batch endpoint's reply: its status code and, when parsed, its members in payload order. */
  datatype Response = Response(status: int, entries: seq<Entry>)

  /** What a generator produced: the records it yielded, then the exception that ended it, if any. */
  datatype Flow = Flow(records: seq<Minute>, raised: Option<PyError>)

  /** Does the loop reach `aggregate` for this entry: a mapped ticker with a truthy bar list? */
  predicate Loaded(secDict: map<string, int>, e: Entry) {
    e.ticker in secDict && e.intradayPrices.Some? && e.intradayPrices.value != []
  }

  /** The records `iter_intraday_api` yields for the payload members `es`, in order. */
  function Flatten(secDict: map<string, int>, es: seq<Entry>): Flow {
    if es == [] then Flow([], None)
    else if !Loaded(secDict, es[0]) then Flatten(secDict, es[1..])
    else
      match Aggregated(es[0].intradayPrices.value, secDict[es[0].ticker])
      case Err(e) => Flow([], Some(e))
      case Ok(recs) =>
        var rest := Flatten(secDict, es[1..]);
        Flow(recs + rest.records, rest.raised)
  }

  /** Running one generator after another: the second only runs when the first ended normally. */
  function Then(a: Flow, b: Flow): Flow {
    if a.raised.Some? then a else Flow(a.records + b.records, b.raised)
  }

  /** `iter_intraday_api` after the request: nothing unless the status is OK, else the flattened payload. */
  function IterIntradayApi(response: Response, secDict: map<string, int>): (f: Flow)
    ensures response.status != StatusOk ==> f == Flow([], None)
  {
    if response.status != StatusOk then Flow([], None) else Flatten(secDict, response.entries)
  }

  /** The payload is processed member by member: flattening a concatenation runs the two parts in turn. */
  lemma {:induction false} FlattenAppend(secDict: map<string, int>, a: seq<Entry>, b: seq<Entry>)
    ensures Flatten(secDict, a + b) == Then(Flatten(secDict, a), Flatten(secDict, b))
  {
    if a != [] {
      assert (a + b)[0] == a[0];
      assert (a + b)[1..] == a[1..] + b;
      FlattenAppend(secDict, a[1..], b);
      if Loaded(secDict, a[0]) {
        var agg := Aggregated(a[0].intradayPrices.value, secDict[a[0].ticker]);
        if agg.Ok? {
          var x, y := Flatten(secDict, a[1..]), Flatten(secDict, b);
          assert agg.value + (x.records + y.records) == (agg.value + x.records) + y.records;
        }
      }
    } else {
      assert a + b == b;
    }
  }

  /**
    A member whose ticker is not in the dictionary, or whose bar list is null or empty, contributes
    nothing and raises nothing, wherever it stands in the payload.
   */
  lemma SkippedEntry(secDict: map<string, int>, a: seq<Entry>, e: Entry, b: seq<Entry>)
    requires !Loaded(secDict, e)
    ensures Flatten(secDict, a + [e] + b) == Flatten(secDict, a + b)
  {
    FlattenAppend(secDict, a + [e], b);
    FlattenAppend(secDict, a, [e]);
    FlattenAppend(secDict, a, b);
    assert Flatten(secDict, [e]) == Flow([], None) by {
      assert [e][1..] == [];
    }
    assert Flatten(secDict, a) == Then(Flatten(secDict, a), Flow([], None));
  }

  /** Every yielded record carries the security id the dictionary gives to some loaded ticker of the payload. */
  lemma {:induction false} RecordsCarryMappedId(secDict: map<string, int>, es: seq<Entry>)
    ensures forall r :: r in Flatten(secDict, es).records ==>
              exists i :: 0 <= i < |es| && Loaded(secDict, es[i]) && r.securityId == Int(secDict[es[i].ticker])
  {
    if es != [] {
      RecordsCarryMappedId(secDict, es[1..]);
      forall r | r in Flatten(secDict, es).records
        ensures exists i :: 0 <= i < |es| && Loaded(secDict, es[i]) && r.securityId == Int(secDict[es[i].ticker])
      {
        var rest := Flatten(secDict, es[1..]).records;
        if r in rest {
          var i :| 0 <= i < |es[1..]| && Loaded(secDict, es[1..][i]) && r.securityId == Int(secDict[es[1..][i].ticker]);
          assert es[i + 1] == es[1..][i];
        } else {
          var recs := Aggregated(es[0].intradayPrices.value, secDict[es[0].ticker]).value;
          var j :| 0 <= j < |recs| && recs[j] == r;
          assert r.securityId == Int(secDict[es[0].ticker]);
        }
      }
    }
  }

  /**
    When the generator ends normally, member `k`'s records come right after those of the members
    before it, one per bar and in bar order, each with its ticker's security id and the bar's datetime.
   */
  lemma TickerBlock(secDict: map<string, int>, es: seq<Entry>, k: nat)
    requires k < |es| && Loaded(secDict, es[k]) && Flatten(secDict, es).raised.None?
    ensures var out := Flatten(secDict, es).records;
            var before := |Flatten(secDict, es[..k]).records|;
            var bars := es[k].intradayPrices.value;
            |bars| == SessionMinutes && before + |bars| <= |out| &&
            out[..before] == Flatten(secDict, es[..k]).records &&
            forall j :: 0 <= j < |bars| ==>
              out[before + j] == Stamp(bars[j], secDict[es[k].ticker], bars[j].date + " " + bars[j].minute + ":00")
  {
    var bars := es[k].intradayPrices.value;
    var agg := Aggregated(bars, secDict[es[k].ticker]);
    TickerSplit(secDict, es, k);
    Block(Flatten(secDict, es[..k]).records, agg.value, Flatten(secDict, es[k + 1..]).records);
  }

  /** A normally ending generator's records around member `k`: those before it, its aggregate, those after it. */
  lemma TickerSplit(secDict: map<string, int>, es: seq<Entry>, k: nat)
    requires k < |es| && Loaded(secDict, es[k]) && Flatten(secDict, es).raised.None?
    ensures var agg := Aggregated(es[k].intradayPrices.value, secDict[es[k].ticker]);
            agg.Ok? &&
            Flatten(secDict, es).records ==
              Flatten(secDict, es[..k]).records + agg.value + Flatten(secDict, es[k + 1..]).records
  {
    var e := es[k];
    FlattenAround(secDict, es, k);
    FlattenOne(secDict, e);
  }

  /** The flow of a payload, split around member `k`. */
  lemma FlattenAround(secDict: map<string, int>, es: seq<Entry>, k: nat)
    requires k < |es|
    ensures Flatten(secDict, es) ==
            Then(Then(Flatten(secDict, es[..k]), Flatten(secDict, [es[k]])), Flatten(secDict, es[k + 1..]))
  {
    var e := es[k];
    calc {
      Flatten(secDict, es);
      { assert es == es[..k] + [e] + es[k + 1..]; }
      Flatten(secDict, es[..k] + [e] + es[k + 1..]);
      { FlattenAppend(secDict, es[..k] + [e], es[k + 1..]); }
      Then(Flatten(secDict, es[..k] + [e]), Flatten(secDict, es[k + 1..]));
      { FlattenAppend(secDict, es[..k], [e]); }
      Then(Then(Flatten(secDict, es[..k]), Flatten(secDict, [e])), Flatten(secDict, es[k + 1..]));
    }
  }

  /** The flow of a single loaded member: its aggregate, or the error aggregating it raised. */
  lemma FlattenOne(secDict: map<string, int>, e: Entry)
    requires Loaded(secDict, e)
    ensures var agg := Aggregated(e.intradayPrices.value, secDict[e.ticker]);
            Flatten(secDict, [e]) == if agg.Ok? then Flow(agg.value, None) else Flow([], Some(agg.error))
  {
    assert [e][1..] == [];
    var agg := Aggregated(e.intradayPrices.value, secDict[e.ticker]);
    if agg.Ok? {
      assert agg.value + [] == agg.value;
    }
  }
}

/**
  Keeping the `security_info` catalog in step with the provider's symbol list: cleaning the
  provider's integer fields, fetching and filtering the list with at most one retry, and
  reconciling it with the enabled catalog rows by provider identifier (`iex_id`).
 */
module SecInfo {
  import opened Wrappers
  import opened PyValues
  import opened Dates
  import opened References
  import opened Seqs
  import opened KeyOrder
  import opened SpeedyDb

  // ----- json_int_clean -----

  /** `json_int_clean`: `int(x)` for a truthy JSON element, -1 for a falsy one (None, 0, "", False). */
  function JsonIntClean(e: Value): (r: Result<int, PyError>)
    ensures !Truthy(e) ==> r == Ok(-1)
    ensures e.Int? && e.i != 0 ==> r == Ok(e.i)
    ensures e.Str? && e.s != "" ==> (r.Ok? <==> Parse(e.s).Some?) && (r.Ok? ==> r.value == Parse(e.s).value)
    ensures r == Err(OverflowError) <==> e.Float? && (e.text == "inf" || e.text == "-inf")
    ensures r.Err? ==> r.error == ValueError || r.error == OverflowError
  {
    if Truthy(e) then IntOf(e) else Ok(-1)
  }

  /** A nonzero integer survives cleaning whether the provider sends it as a number or as its decimal text. */
  lemma JsonIntCleanShow(n: int)
    requires n != 0
    ensures JsonIntClean(Int(n)) == Ok(n)
    ensures JsonIntClean(Str(Show(n))) == Ok(n)
  {
    ParseShow(n);
  }

  // ----- get_iex_symbols -----

  /** One member of the provider's `ref-data/symbols` reply, with the fields the loop reads. */
  datatype SymbolRecord = SymbolRecord(symbol: string, exchange: string, name: string, date: string,
                                       securityType: string, iexId: string, region: string, currency: string,
                                       isEnabled: Value, figi: Value, cik: Value)

  /** One row of the symbols frame: a provider record with its date parsed, its flag and its CIK cleaned. */
  datatype Descriptor = Descriptor(symbol: string, exchange: string, name: string, dateAdded: Date,
                                   securityType: string, iexId: string, region: string, currency: string,
                                   isEnabled: bool, figi: Value, cik: int)

  /** Is the record's `type` one the pipeline keeps? */
  predicate Allowed(rec: SymbolRecord) {
    rec.securityType in SymbolTypesForUse
  }

  /**
    The row one kept record contributes: `strptime(date, "%Y-%m-%d")`, `bool(isEnabled)`,
    `json_int_clean(cik)`, everything else as given. ValueError from the date or the CIK, OverflowError
    from an infinite CIK.
   */
  function Describe(rec: SymbolRecord): (r: Result<Descriptor, PyError>)
    ensures r.Ok? <==> ParseDay(rec.date).Some? && JsonIntClean(rec.cik).Ok?
    ensures ParseDay(rec.date).None? ==> r == Err(ValueError)
    ensures ParseDay(rec.date).Some? && JsonIntClean(rec.cik).Err? ==> r == Err(JsonIntClean(rec.cik).error)
    ensures r.Err? ==> r.error == ValueError || r.error == OverflowError
    ensures r.Ok? ==> ShowDay(r.value.dateAdded) == rec.date && ValidDate(r.value.dateAdded)
    ensures r.Ok? ==> r.value.isEnabled == Truthy(rec.isEnabled) && r.value.cik == JsonIntClean(rec.cik).value
    ensures r.Ok? ==> r.value.symbol == rec.symbol && r.value.iexId == rec.iexId &&
                      r.value.securityType == rec.securityType
  {
    var day := ParseDay(rec.date);
    if day.None? then Err(ValueError)
    else
      var cik := JsonIntClean(rec.cik);
      if cik.Err? then Err(cik.error)
      else
        ShowParseDay(rec.date);
        Ok(Descriptor(rec.symbol, rec.exchange, rec.name, day.value, rec.securityType, rec.iexId,
                      rec.region, rec.currency, Truthy(rec.isEnabled), rec.figi, cik.value))
  }

  /**
    The rows the loop collects from a reply: the described records whose type is allowed, in reply
    order, or the error of the first allowed record that fails (disallowed records are not read).
   */
  function Collected(records: seq<SymbolRecord>): (r: Result<seq<Descriptor>, PyError>)
    ensures r.Ok? <==> forall i :: 0 <= i < |records| && Allowed(records[i]) ==> Describe(records[i]).Ok?
    ensures r.Err? ==> r.error == ValueError || r.error == OverflowError
  {
    if records == [] then Ok([])
    else
      var init := Collected(records[..|records| - 1]);
      var rec := records[|records| - 1];
      if init.Err? then init
      else if !Allowed(rec) then init
      else
        match Describe(rec)
        case Err(e) => Err(e)
        case Ok(d) => Ok(init.value + [d])
  }

  /**
    A successful collection holds one row per allowed record, in reply order: row `j` describes the
    `j`-th allowed record.
   */
  lemma {:induction false} CollectedKept(records: seq<SymbolRecord>)
    requires Collected(records).Ok?
    ensures var kept, rows := Filter(records, Allowed), Collected(records).value;
            |rows| == |kept| &&
            forall j :: 0 <= j < |kept| ==> Describe(kept[j]).Ok? && rows[j] == Describe(kept[j]).value
  {
    if records != [] {
      var init, rec := records[..|records| - 1], records[|records| - 1];
      CollectedKept(init);
      var kept0, rows0 := Filter(init, Allowed), Collected(init).value;
      if Allowed(rec) {
        assert Filter(records, Allowed) == kept0 + [rec];
        assert Collected(records).value == rows0 + [Describe(rec).value];
      } else {
        assert Filter(records, Allowed) == kept0;
      }
    }
  }

  /** The DataFrame `get_iex_symbols` builds: its eleven columns. */
  datatype Frame = Frame(symbols: seq<string>, exchanges: seq<string>, names: seq<string>, dates: seq<Date>,
                         types: seq<string>, iexIds: seq<string>, regions: seq<string>, currencies: seq<string>,
                         enabled: seq<bool>, figis: seq<Value>, ciks: seq<int>)
  {
    /** All columns have one entry per row. */
    predicate Rectangular() {
      |exchanges| == |symbols| && |names| == |symbols| && |dates| == |symbols| && |types| == |symbols| &&
      |iexIds| == |symbols| && |regions| == |symbols| && |currencies| == |symbols| &&
      |enabled| == |symbols| && |figis| == |symbols| && |ciks| == |symbols|
    }

    /** Row `i`, read across the columns. */
    function Row(i: nat): Descriptor
      requires Rectangular() && i < |symbols|
    {
      Descriptor(symbols[i], exchanges[i], names[i], dates[i], types[i], iexIds[i], regions[i],
                 currencies[i], enabled[i], figis[i], ciks[i])
    }
  }

  /** The frame after appending one row's fields to the eleven column lists. */
  function Push(f: Frame, d: Descriptor): Frame {
    Frame(f.symbols + [d.symbol], f.exchanges + [d.exchange], f.names + [d.name], f.dates + [d.dateAdded],
          f.types + [d.securityType], f.iexIds + [d.iexId], f.regions + [d.region], f.currencies + [d.currency],
          f.enabled + [d.isEnabled], f.figis + [d.figi], f.ciks + [d.cik])
  }

  /** The frame whose columns were filled from the rows `ds`, in order: its rows are exactly `ds`. */
  function FrameOf(ds: seq<Descriptor>): (f: Frame)
    ensures f.Rectangular() && |f.symbols| == |ds|
    ensures forall i :: 0 <= i < |ds| ==> f.Row(i) == ds[i]
  {
    if ds == [] then Frame([], [], [], [], [], [], [], [], [], [], [])
    else Push(FrameOf(ds[..|ds| - 1]), ds[|ds| - 1])
  }

  /** What parsing a reply yields: the frame of its kept rows, or the exception. */
  function Parsed(records: seq<SymbolRecord>): Result<Option<Frame>, PyError> {
    match Collected(records)
    case Err(e) => Err(e)
    case Ok(ds) => Ok(Some(FrameOf(ds)))
  }

  /**
    The body of the OK branch of `get_iex_symbols`: walk the reply, skip disallowed types and append
    each kept record's fields to the eleven column lists.
   */
  method ParseSymbols(records: seq<SymbolRecord>) returns (r: Result<Frame, PyError>)
    ensures r.Err? <==> Collected(records).Err?
    ensures r.Err? ==> r.error == Collected(records).error
    ensures r.Ok? ==> r.value == FrameOf(Collected(records).value)
  {
    var syms, exchs, names, dates, types, iexids := [], [], [], [], [], [];
    var regions, currencies, isenableds, figis, ciks := [], [], [], [], [];
    ghost var rows: seq<Descriptor> := [];
    for i := 0 to |records|
      invariant Collected(records[..i]) == Ok(rows)
      invariant FrameOf(rows) == Frame(syms, exchs, names, dates, types, iexids, regions, currencies, isenableds, figis, ciks)
    {
      var line := records[i];
      if line.securityType in SymbolTypesForUse {
        var row := Describe(line);
        if row.Err? {
          CollectedStep(records, i);
          CollectedPrefixErr(records, i + 1);
          return Err(row.error);
        }
        var d := row.value;
        CollectedAppends(records, i, rows);
        FrameOfPush(rows, d);
        rows := rows + [d];
        syms, exchs, names, dates, types := syms + [d.symbol], exchs + [d.exchange], names + [d.name],
                                            dates + [d.dateAdded], types + [d.securityType];
        iexids, regions, currencies := iexids + [d.iexId], regions + [d.region], currencies + [d.currency];
        isenableds, figis, ciks := isenableds + [d.isEnabled], figis + [d.figi], ciks + [d.cik];
      } else {
        CollectedSkips(records, i, rows);
      }
    }
    assert records[..|records|] == records;
    r := Ok(Frame(syms, exchs, names, dates, types, iexids, regions, currencies, isenableds, figis, ciks));
  }

  lemma CollectedStep(records: seq<SymbolRecord>, i: nat)
    requires i < |records| && Collected(records[..i]).Ok?
    ensures !Allowed(records[i]) ==> Collected(records[..i + 1]) == Collected(records[..i])
    ensures Allowed(records[i]) && Describe(records[i]).Err? ==>
              Collected(records[..i + 1]) == Err(Describe(records[i]).error)
    ensures Allowed(records[i]) && Describe(records[i]).Ok? ==>
              Collected(records[..i + 1]) == Ok(Collected(records[..i]).value + [Describe(records[i]).value])
  {
    assert records[..i + 1][..i] == records[..i];
  }

  lemma CollectedSkips(records: seq<SymbolRecord>, i: nat, rows: seq<Descriptor>)
    requires i < |records| && Collected(records[..i]) == Ok(rows) && !Allowed(records[i])
    ensures Collected(records[..i + 1]) == Ok(rows)
  {
    CollectedStep(records, i);
  }

  lemma CollectedAppends(records: seq<SymbolRecord>, i: nat, rows: seq<Descriptor>)
    requires i < |records| && Collected(records[..i]) == Ok(rows) && Allowed(records[i]) && Describe(records[i]).Ok?
    ensures Collected(records[..i + 1]) == Ok(rows + [Describe(records[i]).value])
  {
    CollectedStep(records, i);
  }

  lemma FrameOfPush(ds: seq<Descriptor>, d: Descriptor)
    ensures FrameOf(ds + [d]) == Push(FrameOf(ds), d)
  {
    assert (ds + [d])[..|ds|] == ds;
  }

  /** Once some prefix of the reply raises, the whole reply raises the same exception. */
  lemma {:induction false} CollectedPrefixErr(records: seq<SymbolRecord>, n: nat)
    requires n <= |records| && Collected(records[..n]).Err?
    ensures Collected(records) == Collected(records[..n])
    decreases |records| - n
  {
    if n < |records| {
      assert records[..n + 1][..n] == records[..n];
      CollectedPrefixErr(records, n + 1);
    } else {
      assert records[..n] == records;
    }
  }

  /** A reply of the symbols endpoint: its status code and its parsed members. */
  datatype SymbolsReply = SymbolsReply(status: int, records: seq<SymbolRecord>)

  /**
    `get_iex_symbols` after the requests: `first` answers the first request, `second` the retry.
    A server error on the first request causes exactly one retry; any other failure status, or a
    second failure, gives None; an OK reply is parsed.
   */
  method GetIexSymbols(first: SymbolsReply, second: SymbolsReply) returns (symbols: Result<Option<Frame>, PyError>, requests: nat)
    ensures requests <= 2
    ensures requests == 2 <==> first.status == StatusServerError
    ensures var answered := if requests == 2 then second else first;
            symbols == if answered.status == StatusOk then Parsed(answered.records) else Ok(None)
  {
    var response := first;
    requests := 1;
    symbols := Ok(None);
    var success, retry := false, true;
    while !success
      invariant retry ==> response == first && requests == 1
      invariant !retry ==> response == second && requests == 2 && first.status == StatusServerError
      invariant success && retry ==> first.status != StatusServerError
      invariant !success ==> symbols == Ok(None)
      invariant success ==> symbols == if response.status == StatusOk then Parsed(response.records) else Ok(None)
      decreases (if success then 0 else 1) + (if retry then 1 else 0)
    {
      if response.status == StatusOk {
        success := true;
        var parsed := ParseSymbols(response.records);
        if parsed.Err? {
          return Err(parsed.error), requests;
        }
        symbols := Ok(Some(parsed.value));
      } else if response.status == StatusServerError && retry {
        retry := false;
        response := second;
        requests := requests + 1;
      } else {
        success := true;
      }
    }
  }

  /** Every row of a parsed frame comes from a reply member whose type is in the allow-list, in reply order. */
  lemma ParsedRowsAllowed(records: seq<SymbolRecord>)
    requires Parsed(records).Ok? && Parsed(records).value.Some?
    ensures var f := Parsed(records).value.value;
            var kept := Filter(records, Allowed);
            |f.symbols| == |kept| &&
            forall i :: 0 <= i < |f.symbols| ==>
              Allowed(kept[i]) && Describe(kept[i]).Ok? && f.Row(i) == Describe(kept[i]).value &&
              f.types[i] in SymbolTypesForUse
  {
    CollectedKept(records);
    var ds, kept := Collected(records).value, Filter(records, Allowed);
    var f := FrameOf(ds);
    forall i | 0 <= i < |f.symbols| ensures Allowed(kept[i]) && f.types[i] in SymbolTypesForUse {
      assert kept[i] in kept;
      assert f.Row(i) == ds[i];
    }
  }

  // ----- update -----

  /** A provider identifier, the join key of the outer merge. */
  type IexId = string

  /** An enabled catalog row as `get_db_symbols` selects it: its id and its current symbol. */
  datatype CatalogRow = CatalogRow(secId: int, symbol: string)

  /** The provider side of the merge, keyed by `iex_id`. */
  type Provider = map<IexId, Descriptor>

  /** The catalog side of the merge: the enabled rows, keyed by `iex_id`. */
  type Catalog = map<IexId, CatalogRow>

  /** The provider frame keyed by its `iex_id` column; every row is filed under its own identifier. */
  function ProviderOf(f: Frame): (p: Provider)
    requires f.Rectangular()
    ensures forall k :: k in p <==> k in f.iexIds
    ensures forall k :: k in p ==> p[k].iexId == k && exists i :: 0 <= i < |f.symbols| && p[k] == f.Row(i)
  {
    var ps := seq(|f.symbols|, i requires 0 <= i < |f.symbols| => (f.iexIds[i], f.Row(i)));
    LastWinsAt(ps);
    LastWinsFrom(ps);
    assert forall k :: k in f.iexIds ==> exists i :: 0 <= i < |ps| && ps[i].0 == k by {
      forall k | k in f.iexIds ensures exists i :: 0 <= i < |ps| && ps[i].0 == k {
        var i :| 0 <= i < |f.iexIds| && f.iexIds[i] == k;
        assert ps[i].0 == k;
      }
    }
    LastWins(ps)
  }

  /** Present on both sides under different symbols: the security was renamed. */
  predicate IsRenamed(p: Provider, c: Catalog, k: IexId) {
    k in p && k in c && p[k].symbol != c[k].symbol
  }

  /** Provider only (`left_only`): a security the catalog does not have yet. */
  predicate IsNew(p: Provider, c: Catalog, k: IexId) {
    k in p && k !in c
  }

  /** Catalog only (`right_only`): a security the provider no longer lists. */
  predicate IsDeprecated(p: Provider, c: Catalog, k: IexId) {
    k !in p && k in c
  }

  /** Present on both sides under the same symbol. */
  predicate IsUnchanged(p: Provider, c: Catalog, k: IexId) {
    k in p && k in c && p[k].symbol == c[k].symbol
  }

  /** The four groups the merged rows fall into. */
  datatype Change = Renamed | New | Deprecated | Unchanged

  /** Identifier `k` is in group `g`. */
  predicate Belongs(p: Provider, c: Catalog, k: IexId, g: Change) {
    match g
    case Renamed => IsRenamed(p, c, k)
    case New => IsNew(p, c, k)
    case Deprecated => IsDeprecated(p, c, k)
    case Unchanged => IsUnchanged(p, c, k)
  }

  /** The merged rows of group `g`, in merged order `ks` (the boolean masks of `update`). */
  function Group(p: Provider, c: Catalog, ks: seq<IexId>, g: Change): (r: seq<IexId>)
    ensures |r| <= |ks|
    ensures forall k :: k in r <==> k in ks && Belongs(p, c, k, g)
    ensures forall i :: 0 <= i < |r| ==> Belongs(p, c, r[i], g)
  {
    if ks == [] then []
    else
      var init := Group(p, c, ks[..|ks| - 1], g);
      if Belongs(p, c, ks[|ks| - 1], g) then init + [ks[|ks| - 1]] else init
  }

  /** A group of distinct identifiers lists each member once. */
  lemma {:induction false} GroupDistinct(p: Provider, c: Catalog, ks: seq<IexId>, g: Change)
    requires Distinct(ks)
    ensures Distinct(Group(p, c, ks, g))
  {
    if ks != [] {
      var init := ks[..|ks| - 1];
      assert Distinct(init);
      GroupDistinct(p, c, init, g);
    }
  }

  /**
    A group is the merged order filtered by its predicate, so it lists its identifiers in merged
    order (`Seqs.FilterAppend` carries that order over to concatenations).
   */
  lemma {:induction false} GroupIsFilter(p: Provider, c: Catalog, ks: seq<IexId>, g: Change)
    ensures Group(p, c, ks, g) == Filter(ks, k => Belongs(p, c, k, g))
  {
    if ks != [] {
      GroupIsFilter(p, c, ks[..|ks| - 1], g);
    }
  }

  /** Groups of a concatenated order are the concatenations of the parts' groups. */
  lemma GroupAppend(p: Provider, c: Catalog, a: seq<IexId>, b: seq<IexId>, g: Change)
    ensures Group(p, c, a + b, g) == Group(p, c, a, g) + Group(p, c, b, g)
  {
    GroupIsFilter(p, c, a + b, g);
    GroupIsFilter(p, c, a, g);
    GroupIsFilter(p, c, b, g);
    FilterAppend(a, b, k => Belongs(p, c, k, g));
  }

  /** An effect `update` has on the catalog through the cursor, in the order it happens. */
  datatype CursorOp =
    | UpdateSymsCall(secId: int, newSymbol: string)
    | InsertRow(history: History, security: Descriptor)
    | DeprecateBatch(data: seq<(string, int)>)
    | Commit

  /** One `update_syms(sec_id, iex_symbol)` per renamed row. */
  function RenameCalls(p: Provider, c: Catalog, ks: seq<IexId>): seq<CursorOp>
    requires forall k :: k in ks ==> k in p && k in c
  {
    seq(|ks|, i requires 0 <= i < |ks| => UpdateSymsCall(c[ks[i]].secId, p[ks[i]].symbol))
  }

  /** One INSERT per new row, its symbol column being `json.dumps({'current': iex_symbol})`. */
  function InsertCalls(p: Provider, ks: seq<IexId>): seq<CursorOp>
    requires forall k :: k in ks ==> k in p
  {
    seq(|ks|, i requires 0 <= i < |ks| => InsertRow(NewHistory(p[ks[i]].symbol), p[ks[i]]))
  }

  /** What the INSERTs send back: the id the catalog assigns and the row's current symbol. */
  function Returns(p: Provider, assign: IexId -> int, ks: seq<IexId>): seq<Returned>
    requires forall k :: k in ks ==> k in p
  {
    seq(|ks|, i requires 0 <= i < |ks| => Returned(assign(ks[i]), p[ks[i]].symbol))
  }

  /** The catalog ids of rows `ks`. */
  function SecIds(c: Catalog, ks: seq<IexId>): seq<int>
    requires forall k :: k in ks ==> k in c
  {
    seq(|ks|, i requires 0 <= i < |ks| => c[ks[i]].secId)
  }

  /** The `depreciate_syms` batch, issued only when some row is catalog-only. */
  function DeprecateCalls(c: Catalog, today: string, ks: seq<IexId>): seq<CursorOp>
    requires forall k :: k in ks ==> k in c
  {
    if ks == [] then [] else [DeprecateBatch(DepreciateSyms(today, SecIds(c, ks)))]
  }

  /** The `security_dict[iex_symbol] = int(sec_id)` assignments for rows `ks`. */
  function UnchangedPairs(p: Provider, c: Catalog, ks: seq<IexId>): seq<(string, int)>
    requires forall k :: k in ks ==> k in p && k in c
  {
    seq(|ks|, i requires 0 <= i < |ks| => (p[ks[i]].symbol, c[ks[i]].secId))
  }

  /** The merged row order: the union of both sides' identifiers, ascending. */
  ghost function Merged(p: Provider, c: Catalog): seq<IexId> {
    Sorted(p.Keys + c.Keys)
  }

  /**
    The dictionary `update` returns once the merge succeeds, for merged order `ks`: the insert results
    overlaid with the unchanged rows' symbols and ids. `assign` stands for the ids the catalog hands
    out on insert.
   */
  function SecurityDict(p: Provider, c: Catalog, ks: seq<IexId>, assign: IexId -> int): map<string, int> {
    LastWins(SymbolIds(Returns(p, assign, Group(p, c, ks, New))) + UnchangedPairs(p, c, Group(p, c, ks, Unchanged)))
  }

  /** The statements `update` runs once the merge succeeds, for merged order `ks`, with deprecation by `sec_id`. */
  function Effects(p: Provider, c: Catalog, ks: seq<IexId>, today: string): seq<CursorOp> {
    RenameCalls(p, c, Group(p, c, ks, Renamed)) + InsertCalls(p, Group(p, c, ks, New)) +
    DeprecateCalls(c, today, Group(p, c, ks, Deprecated)) + [Commit]
  }

  /** What `update` does once the merge succeeds, deprecating by the catalog's `sec_id` column. */
  ghost function Outcome(p: Provider, c: Catalog, assign: IexId -> int, today: string)
    : (Result<map<string, int>, PyError>, seq<CursorOp>)
  {
    var ks := Merged(p, c);
    (Ok(SecurityDict(p, c, ks, assign)), Effects(p, c, ks, today))
  }

  /**
    What `update` does once the merge succeeds, as written: the deprecation branch reads a
    `security_id` column the merged frame does not have, so any catalog-only row raises
    AttributeError after the renames and inserts and before the commit.
   */
  ghost function OutcomeAsWritten(p: Provider, c: Catalog, assign: IexId -> int, today: string)
    : (r: (Result<map<string, int>, PyError>, seq<CursorOp>))
    ensures r.0.Err? <==> exists k :: IsDeprecated(p, c, k)
    ensures r.0.Err? ==> r.0.error == AttributeError("security_id") && Commit !in r.1
    ensures r.0.Ok? ==> r == Outcome(p, c, assign, today)
  {
    var ks := Merged(p, c);
    var dep := Group(p, c, ks, Deprecated);
    if dep != [] then
      FrontUncommitted(p, c, ks);
      assert IsDeprecated(p, c, dep[0]);
      (Err(AttributeError("security_id")), RenameCalls(p, c, Group(p, c, ks, Renamed)) + InsertCalls(p, Group(p, c, ks, New)))
    else
      assert forall k :: !IsDeprecated(p, c, k) by {
        MergedEnumerates(p, c);
        forall k ensures !IsDeprecated(p, c, k) {
          assert IsDeprecated(p, c, k) ==> k in ks;
        }
      }
      Outcome(p, c, assign, today)
  }


  /**
    What `update` does, deprecating by `sec_id`: an AttributeError before any statement when the
    fetch gave None (`None.merge`), else the dictionary and the statements.
   */
  ghost function UpdateOutcome(fetched: Option<Frame>, c: Catalog, assign: IexId -> int, today: string)
    : (Result<map<string, int>, PyError>, seq<CursorOp>)
    requires fetched.Some? ==> fetched.value.Rectangular()
  {
    if fetched.None? then (Err(AttributeError("merge")), [])
    else Outcome(ProviderOf(fetched.value), c, assign, today)
  }

  /** What `update` does as written, on the fetch's result. */
  ghost function UpdateAsWritten(fetched: Option<Frame>, c: Catalog, assign: IexId -> int, today: string)
    : (r: (Result<map<string, int>, PyError>, seq<CursorOp>))
    requires fetched.Some? ==> fetched.value.Rectangular()
    ensures fetched.None? ==> r.0.Err? && r.1 == []
    ensures fetched.Some? ==> (r.0.Err? <==> exists k :: k in c && k !in fetched.value.iexIds)
    ensures r.0.Err? ==> Commit !in r.1
    ensures r.0.Ok? ==> r == UpdateOutcome(fetched, c, assign, today)
  {
    if fetched.None? then (Err(AttributeError("merge")), [])
    else OutcomeAsWritten(ProviderOf(fetched.value), c, assign, today)
  }

  /**
    `update`: merge the fetched frame with the catalog, rename, insert, deprecate, fill the
    dictionary from the unchanged rows and commit.
   */
  method Update(fetched: Option<Frame>, catalog: Catalog, assign: IexId -> int, today: string)
    returns (r: Result<map<string, int>, PyError>, ops: seq<CursorOp>)
    requires fetched.Some? ==> fetched.value.Rectangular()
    ensures (r, ops) == UpdateOutcome(fetched, catalog, assign, today)
    ensures fetched.None? ==> r.Err? && ops == []
    ensures fetched.Some? ==> r.Ok? && ops != [] && ops[|ops| - 1] == Commit
  {
    if fetched.None? {
      return Err(AttributeError("merge")), [];
    }
    var p := ProviderOf(fetched.value);
    var order := SortedKeys(p.Keys + catalog.Keys);
    var securityDict;
    securityDict, ops := Reconcile(p, catalog, order, assign, today);
    r := Ok(securityDict);
  }

  /** The body of `update` after the merge, over merged order `ks`. */
  method Reconcile(p: Provider, c: Catalog, ks: seq<IexId>, assign: IexId -> int, today: string)
    returns (securityDict: map<string, int>, ops: seq<CursorOp>)
    ensures securityDict == SecurityDict(p, c, ks, assign)
    ensures ops == Effects(p, c, ks, today)
  {
    var renamed := Group(p, c, ks, Renamed);
    ops := RenameAll(p, c, renamed);

    var added := Group(p, c, ks, New);
    ops := ops + InsertCalls(p, added);
    securityDict := InsertNewSyms(Returns(p, assign, added));

    var deprecated := Group(p, c, ks, Deprecated);
    if deprecated != [] {
      ops := ops + [DeprecateBatch(DepreciateSyms(today, SecIds(c, deprecated)))];
    }

    var uptodate := Group(p, c, ks, Unchanged);
    securityDict := OverlayUnchanged(securityDict, p, c, uptodate);
    LastWinsAppend(SymbolIds(Returns(p, assign, added)), UnchangedPairs(p, c, uptodate));

    ops := ops + [Commit];
  }

  /** The rename loop of `update`: one `update_syms` call per row of `renamed`, in order. */
  method RenameAll(p: Provider, c: Catalog, renamed: seq<IexId>) returns (ops: seq<CursorOp>)
    requires forall k :: k in renamed ==> k in p && k in c
    ensures ops == RenameCalls(p, c, renamed)
  {
    ops := [];
    for i := 0 to |renamed|
      invariant ops == RenameCalls(p, c, renamed[..i])
    {
      ops := ops + [UpdateSymsCall(c[renamed[i]].secId, p[renamed[i]].symbol)];
    }
    assert renamed[..|renamed|] == renamed;
  }

  /** The up-to-date loop of `update`: assign each unchanged row's symbol its catalog id, in order. */
  method OverlayUnchanged(d: map<string, int>, p: Provider, c: Catalog, uptodate: seq<IexId>) returns (r: map<string, int>)
    requires forall k :: k in uptodate ==> k in p && k in c
    ensures r == d + LastWins(UnchangedPairs(p, c, uptodate))
  {
    r := d;
    for i := 0 to |uptodate|
      invariant r == d + LastWins(UnchangedPairs(p, c, uptodate[..i]))
    {
      var u := uptodate[i];
      assert UnchangedPairs(p, c, uptodate[..i + 1])[..i] == UnchangedPairs(p, c, uptodate[..i]);
      r := r[p[u].symbol := c[u].secId];
    }
    assert uptodate[..|uptodate|] == uptodate;
  }

  // ----- properties of the reconciliation -----

  /** `ks` lists every identifier of either side exactly once, as the merged frame's rows do. */
  ghost predicate Enumerates(p: Provider, c: Catalog, ks: seq<IexId>) {
    Distinct(ks) && forall k :: k in ks <==> k in p || k in c
  }

  /** The merged order enumerates the union of both sides, so the lemmas below apply to `update`. */
  lemma MergedEnumerates(p: Provider, c: Catalog)
    ensures Enumerates(p, c, Merged(p, c)) && |Merged(p, c)| == |p.Keys + c.Keys|
  {
    AscendingDistinct(Merged(p, c));
  }

  /** Counting the four groups of a sequence of identifiers taken from either side. */
  lemma {:induction false} GroupSizes(p: Provider, c: Catalog, ks: seq<IexId>)
    requires forall k :: k in ks ==> k in p || k in c
    ensures |Group(p, c, ks, Renamed)| + |Group(p, c, ks, New)| + |Group(p, c, ks, Deprecated)| + |Group(p, c, ks, Unchanged)| == |ks|
  {
    if ks != [] {
      GroupSizes(p, c, ks[..|ks| - 1]);
    }
  }

  /**
    Every identifier of either side falls in exactly one of the four groups; each group lists its
    members once, and the groups together have one entry per merged row.
   */
  lemma Classification(p: Provider, c: Catalog, ks: seq<IexId>)
    requires Enumerates(p, c, ks)
    ensures forall k :: k in p || k in c ==>
              (if IsRenamed(p, c, k) then 1 else 0) + (if IsNew(p, c, k) then 1 else 0) +
              (if IsDeprecated(p, c, k) then 1 else 0) + (if IsUnchanged(p, c, k) then 1 else 0) == 1
    ensures forall k :: k in Group(p, c, ks, Renamed) <==> IsRenamed(p, c, k)
    ensures forall k :: k in Group(p, c, ks, New) <==> IsNew(p, c, k)
    ensures forall k :: k in Group(p, c, ks, Deprecated) <==> IsDeprecated(p, c, k)
    ensures forall k :: k in Group(p, c, ks, Unchanged) <==> IsUnchanged(p, c, k)
    ensures Distinct(Group(p, c, ks, Renamed)) && Distinct(Group(p, c, ks, New)) &&
            Distinct(Group(p, c, ks, Deprecated)) && Distinct(Group(p, c, ks, Unchanged))
    ensures |Group(p, c, ks, Renamed)| + |Group(p, c, ks, New)| + |Group(p, c, ks, Deprecated)| + |Group(p, c, ks, Unchanged)| == |ks|
  {
    GroupDistinct(p, c, ks, Renamed);
    GroupDistinct(p, c, ks, New);
    GroupDistinct(p, c, ks, Deprecated);
    GroupDistinct(p, c, ks, Unchanged);
    GroupSizes(p, c, ks);
  }

  /**
    Where each kind of statement sits in a list of renames, then inserts, then deprecation batches,
    then the commit.
   */
  lemma Layout(renames: seq<CursorOp>, inserts: seq<CursorOp>, batches: seq<CursorOp>)
    requires forall i :: 0 <= i < |renames| ==> renames[i].UpdateSymsCall?
    requires forall i :: 0 <= i < |inserts| ==> inserts[i].InsertRow?
    requires forall i :: 0 <= i < |batches| ==> batches[i].DeprecateBatch?
    ensures var ops := renames + inserts + batches + [Commit];
            |ops| == |renames| + |inserts| + |batches| + 1 &&
            (forall i :: 0 <= i < |renames| ==> ops[i] == renames[i]) &&
            (forall i :: 0 <= i < |inserts| ==> ops[|renames| + i] == inserts[i]) &&
            (forall i :: 0 <= i < |batches| ==> ops[|renames| + |inserts| + i] == batches[i]) &&
            (forall i :: 0 <= i < |ops| ==>
               (ops[i].UpdateSymsCall? <==> i < |renames|) &&
               (ops[i].InsertRow? <==> |renames| <= i < |renames| + |inserts|) &&
               (ops[i].DeprecateBatch? <==> |renames| + |inserts| <= i < |ops| - 1) &&
               (ops[i].Commit? <==> i == |ops| - 1))
  {
  }

  /**
    The statement list by position: the renames, then the inserts, then at most one deprecation
    batch, then the commit.
   */
  lemma EffectsShape(p: Provider, c: Catalog, ks: seq<IexId>, today: string)
    ensures var ops := Effects(p, c, ks, today);
            |ops| == |Group(p, c, ks, Renamed)| + |Group(p, c, ks, New)| + (if Group(p, c, ks, Deprecated) == [] then 0 else 1) + 1
    ensures var ops, renamed := Effects(p, c, ks, today), Group(p, c, ks, Renamed);
            ops[..|renamed|] == RenameCalls(p, c, renamed)
    ensures var ops, renamed, added := Effects(p, c, ks, today), Group(p, c, ks, Renamed), Group(p, c, ks, New);
            ops[|renamed|..|renamed| + |added|] == InsertCalls(p, added)
    ensures var ops, dep := Effects(p, c, ks, today), Group(p, c, ks, Deprecated);
            var front := |Group(p, c, ks, Renamed)| + |Group(p, c, ks, New)|;
            dep != [] ==> ops[front] == DeprecateBatch(DepreciateSyms(today, SecIds(c, dep)))
    ensures var ops := Effects(p, c, ks, today);
            var renamed, added := Group(p, c, ks, Renamed), Group(p, c, ks, New);
            var front := |renamed| + |added|;
            forall i :: 0 <= i < |ops| ==>
              (ops[i].UpdateSymsCall? <==> i < |renamed|) &&
              (ops[i].InsertRow? <==> |renamed| <= i < front) &&
              (ops[i].DeprecateBatch? <==> front <= i < |ops| - 1) &&
              (ops[i].Commit? <==> i == |ops| - 1)
  {
    EffectsRenamesAt(p, c, ks, today);
    EffectsInsertsAt(p, c, ks, today);
    EffectsKinds(p, c, ks, today);
  }

  /** The renames open the statement list, in merged order. */
  lemma EffectsRenamesAt(p: Provider, c: Catalog, ks: seq<IexId>, today: string)
    ensures var ops, renamed := Effects(p, c, ks, today), Group(p, c, ks, Renamed);
            |renamed| <= |ops| && ops[..|renamed|] == RenameCalls(p, c, renamed)
  {
    var renamed := Group(p, c, ks, Renamed);
    var rs := RenameCalls(p, c, renamed);
    var rest := InsertCalls(p, Group(p, c, ks, New)) + DeprecateCalls(c, today, Group(p, c, ks, Deprecated)) + [Commit];
    assert Effects(p, c, ks, today) == rs + rest;
    assert (rs + rest)[..|rs|] == rs;
  }

  /** The inserts follow the renames, in merged order. */
  lemma EffectsInsertsAt(p: Provider, c: Catalog, ks: seq<IexId>, today: string)
    ensures var ops, renamed, added := Effects(p, c, ks, today), Group(p, c, ks, Renamed), Group(p, c, ks, New);
            |renamed| + |added| <= |ops| &&
            ops[|renamed|..|renamed| + |added|] == InsertCalls(p, added)
  {
    var renamed, added := Group(p, c, ks, Renamed), Group(p, c, ks, New);
    var rs, ins := RenameCalls(p, c, renamed), InsertCalls(p, added);
    var rest := DeprecateCalls(c, today, Group(p, c, ks, Deprecated)) + [Commit];
    assert Effects(p, c, ks, today) == rs + ins + rest;
    Block(rs, ins, rest);
  }

  /** The length of the statement list, the batch after the inserts, and the kind of statement at each position. */
  lemma EffectsKinds(p: Provider, c: Catalog, ks: seq<IexId>, today: string)
    ensures var ops := Effects(p, c, ks, today);
            |ops| == |Group(p, c, ks, Renamed)| + |Group(p, c, ks, New)| + (if Group(p, c, ks, Deprecated) == [] then 0 else 1) + 1
    ensures var ops, dep := Effects(p, c, ks, today), Group(p, c, ks, Deprecated);
            var front := |Group(p, c, ks, Renamed)| + |Group(p, c, ks, New)|;
            dep != [] ==> ops[front] == DeprecateBatch(DepreciateSyms(today, SecIds(c, dep)))
    ensures var ops := Effects(p, c, ks, today);
            var renamed, added := Group(p, c, ks, Renamed), Group(p, c, ks, New);
            var front := |renamed| + |added|;
            forall i :: 0 <= i < |ops| ==>
              (ops[i].UpdateSymsCall? <==> i < |renamed|) &&
              (ops[i].InsertRow? <==> |renamed| <= i < front) &&
              (ops[i].DeprecateBatch? <==> front <= i < |ops| - 1) &&
              (ops[i].Commit? <==> i == |ops| - 1)
  {
    var renamed, added, dep := Group(p, c, ks, Renamed), Group(p, c, ks, New), Group(p, c, ks, Deprecated);
    var rs, ins, ds := RenameCalls(p, c, renamed), InsertCalls(p, added), DeprecateCalls(c, today, dep);
    assert Effects(p, c, ks, today) == rs + ins + ds + [Commit];
    Layout(rs, ins, ds);
  }

  /**
    `update_syms` is called first, once per renamed security, with the catalog's id and the
    provider's new symbol, and at no other point.
   */
  lemma RenameCallsOnce(p: Provider, c: Catalog, ks: seq<IexId>, today: string)
    requires Enumerates(p, c, ks)
    ensures var ops := Effects(p, c, ks, today);
            var renamed := Group(p, c, ks, Renamed);
            |renamed| <= |ops| &&
            (forall i :: 0 <= i < |renamed| ==> ops[i] == UpdateSymsCall(c[renamed[i]].secId, p[renamed[i]].symbol)) &&
            (forall i :: 0 <= i < |ops| ==> (ops[i].UpdateSymsCall? <==> i < |renamed|))
    ensures forall k :: IsRenamed(p, c, k) ==> UpdateSymsCall(c[k].secId, p[k].symbol) in Effects(p, c, ks, today)
  {
    EffectsShape(p, c, ks, today);
    var ops := Effects(p, c, ks, today);
    var renamed := Group(p, c, ks, Renamed);
    assert forall i :: 0 <= i < |renamed| ==> ops[i] == ops[..|renamed|][i];
    forall k | IsRenamed(p, c, k) ensures UpdateSymsCall(c[k].secId, p[k].symbol) in ops {
      assert k in ks;
      var i :| 0 <= i < |renamed| && renamed[i] == k;
      assert ops[i] == UpdateSymsCall(c[k].secId, p[k].symbol);
    }
  }

  /** Every provider row is filed under its own identifier, as `ProviderOf` guarantees. */
  ghost predicate Keyed(p: Provider) {
    forall k :: k in p ==> p[k].iexId == k
  }

  /** The kinds of statement in each part of the list: renames, inserts, then the one deprecation batch. */
  lemma OpKinds(p: Provider, c: Catalog, ks: seq<IexId>, today: string)
    ensures forall op :: op in RenameCalls(p, c, Group(p, c, ks, Renamed)) ==> op.UpdateSymsCall?
    ensures forall op :: op in InsertCalls(p, Group(p, c, ks, New)) ==> op.InsertRow?
    ensures var dep := Group(p, c, ks, Deprecated);
            forall op :: op in DeprecateCalls(c, today, dep) ==> op == DeprecateBatch(DepreciateSyms(today, SecIds(c, dep)))
  {
  }

  /** The inserts: one per new row, with the history `{'current': symbol}` and the provider row. */
  lemma InsertedRows(p: Provider, c: Catalog, ks: seq<IexId>)
    requires Enumerates(p, c, ks)
    ensures var ins := InsertCalls(p, Group(p, c, ks, New));
            (forall k :: IsNew(p, c, k) ==> InsertRow(NewHistory(p[k].symbol), p[k]) in ins) &&
            (forall op :: op in ins ==> exists k :: IsNew(p, c, k) && op == InsertRow(NewHistory(p[k].symbol), p[k]))
  {
    var added := Group(p, c, ks, New);
    var ins := InsertCalls(p, added);
    forall k | IsNew(p, c, k) ensures InsertRow(NewHistory(p[k].symbol), p[k]) in ins {
      assert k in ks;
      var i :| 0 <= i < |added| && added[i] == k;
      assert ins[i] == InsertRow(NewHistory(p[k].symbol), p[k]);
    }
    forall op | op in ins ensures exists k :: IsNew(p, c, k) && op == InsertRow(NewHistory(p[k].symbol), p[k]) {
      var i :| 0 <= i < |ins| && ins[i] == op;
      assert IsNew(p, c, added[i]);
    }
  }

  /** The inserts in the statement list are exactly the INSERT calls. */
  lemma InsertsOf(p: Provider, c: Catalog, ks: seq<IexId>, today: string)
    ensures forall op :: op in Effects(p, c, ks, today) && op.InsertRow? <==> op in InsertCalls(p, Group(p, c, ks, New))
  {
    var rs, ins := RenameCalls(p, c, Group(p, c, ks, Renamed)), InsertCalls(p, Group(p, c, ks, New));
    var back: seq<CursorOp> := DeprecateCalls(c, today, Group(p, c, ks, Deprecated)) + [Commit];
    assert Effects(p, c, ks, today) == rs + ins + back;
    OpKinds(p, c, ks, today);
    assert forall op: CursorOp :: op in rs + back ==> !op.InsertRow?;
  }

  /**
    Each new security is inserted, with the history `{'current': symbol}` and its provider row; and
    every insert is of a new security.
   */
  lemma NewSecuritiesInserted(p: Provider, c: Catalog, ks: seq<IexId>, today: string)
    requires Enumerates(p, c, ks) && Keyed(p)
    ensures forall k :: IsNew(p, c, k) ==> InsertRow(NewHistory(p[k].symbol), p[k]) in Effects(p, c, ks, today)
    ensures forall op :: op in Effects(p, c, ks, today) && op.InsertRow? ==>
              IsNew(p, c, op.security.iexId) && op.security == p[op.security.iexId] &&
              op.history == map[Current := op.security.symbol]
  {
    var ins := InsertCalls(p, Group(p, c, ks, New));
    InsertsOf(p, c, ks, today);
    InsertedRows(p, c, ks);
    forall op | op in Effects(p, c, ks, today) && op.InsertRow?
      ensures IsNew(p, c, op.security.iexId) && op.security == p[op.security.iexId] &&
              op.history == map[Current := op.security.symbol]
    {
      assert op in ins;
      var k :| IsNew(p, c, k) && op == InsertRow(NewHistory(p[k].symbol), p[k]);
      assert op.security.iexId == k;
    }
  }

  /** The deprecation batch pairs today's date with the catalog id of each row of `dep`, and nothing else. */
  lemma BatchData(c: Catalog, today: string, dep: seq<IexId>)
    requires forall k :: k in dep ==> k in c
    ensures var data := DepreciateSyms(today, SecIds(c, dep));
            (forall k :: k in dep ==> (today, c[k].secId) in data) &&
            (forall pr :: pr in data ==> pr.0 == today && exists k :: k in dep && pr.1 == c[k].secId)
  {
    var data := DepreciateSyms(today, SecIds(c, dep));
    forall k | k in dep ensures (today, c[k].secId) in data {
      var i :| 0 <= i < |dep| && dep[i] == k;
      assert data[i] == (today, c[k].secId);
    }
    forall pr | pr in data ensures pr.0 == today && exists k :: k in dep && pr.1 == c[k].secId {
      var i :| 0 <= i < |data| && data[i] == pr;
      assert dep[i] in dep;
    }
  }

  /**
    The deprecation batch is issued exactly when some catalog row has no provider counterpart; it
    pairs today's date with the id of every such row and of no other.
   */
  lemma Deprecations(p: Provider, c: Catalog, ks: seq<IexId>, today: string)
    requires Enumerates(p, c, ks)
    ensures (exists op :: op in Effects(p, c, ks, today) && op.DeprecateBatch?) <==> exists k :: IsDeprecated(p, c, k)
    ensures forall op :: op in Effects(p, c, ks, today) && op.DeprecateBatch? ==>
              (forall k :: IsDeprecated(p, c, k) ==> (today, c[k].secId) in op.data) &&
              (forall pr :: pr in op.data ==> pr.0 == today && exists k :: IsDeprecated(p, c, k) && pr.1 == c[k].secId)
  {
    var dep := Group(p, c, ks, Deprecated);
    BatchOf(p, c, ks, today);
    BatchData(c, today, dep);
    forall k | IsDeprecated(p, c, k) ensures k in dep {
      assert k in ks;
    }
    if dep != [] {
      assert IsDeprecated(p, c, dep[0]);
    }
  }

  /** A deprecation batch is in the statement list exactly when `dep` is non-empty, and it covers `dep`. */
  lemma BatchOf(p: Provider, c: Catalog, ks: seq<IexId>, today: string)
    ensures var dep := Group(p, c, ks, Deprecated);
            (exists op :: op in Effects(p, c, ks, today) && op.DeprecateBatch?) <==> dep != []
    ensures var dep := Group(p, c, ks, Deprecated);
            forall op :: op in Effects(p, c, ks, today) && op.DeprecateBatch? ==>
              op.data == DepreciateSyms(today, SecIds(c, dep))
  {
    var dep := Group(p, c, ks, Deprecated);
    var front, batch := RenameCalls(p, c, Group(p, c, ks, Renamed)) + InsertCalls(p, Group(p, c, ks, New)), DeprecateCalls(c, today, dep);
    OpKinds(p, c, ks, today);
    assert Effects(p, c, ks, today) == front + batch + [Commit];
    assert forall op :: op in front ==> !op.DeprecateBatch?;
    if dep != [] {
      assert batch[0] in Effects(p, c, ks, today);
    }
  }

  /** The statement list ends with the commit, and commits nowhere else. */
  lemma CommitsOnceAtEnd(p: Provider, c: Catalog, ks: seq<IexId>, today: string)
    ensures var ops := Effects(p, c, ks, today);
            ops != [] && ops[|ops| - 1] == Commit && forall i :: 0 <= i < |ops| - 1 ==> ops[i] != Commit
  {
    EffectsShape(p, c, ks, today);
  }

  /**
    Where the dictionary's assignments come from: each new row's symbol with the id the catalog
    assigned, each unchanged row's symbol with its `sec_id`, and nothing else.
   */
  ghost predicate PairsFrom(p: Provider, c: Catalog, assign: IexId -> int, ps: seq<(string, int)>) {
    (forall k :: IsNew(p, c, k) ==> (p[k].symbol, assign(k)) in ps) &&
    (forall k :: IsUnchanged(p, c, k) ==> (p[k].symbol, c[k].secId) in ps) &&
    (forall pr :: pr in ps ==>
       exists k :: k in p && pr.0 == p[k].symbol &&
                   ((IsNew(p, c, k) && pr.1 == assign(k)) || (IsUnchanged(p, c, k) && pr.1 == c[k].secId)))
  }

  /** The pairs `insert_new_syms` records: one per new row, its symbol with its assigned id. */
  lemma InsertedPairs(p: Provider, c: Catalog, ks: seq<IexId>, assign: IexId -> int)
    requires Enumerates(p, c, ks)
    ensures var ps := SymbolIds(Returns(p, assign, Group(p, c, ks, New)));
            (forall k :: IsNew(p, c, k) ==> (p[k].symbol, assign(k)) in ps) &&
            (forall pr :: pr in ps ==> exists k :: IsNew(p, c, k) && pr == (p[k].symbol, assign(k)))
  {
    var added := Group(p, c, ks, New);
    var ps := SymbolIds(Returns(p, assign, added));
    forall k | IsNew(p, c, k) ensures (p[k].symbol, assign(k)) in ps {
      assert k in ks;
      var i :| 0 <= i < |added| && added[i] == k;
      assert ps[i] == (p[k].symbol, assign(k));
    }
    forall pr | pr in ps ensures exists k :: IsNew(p, c, k) && pr == (p[k].symbol, assign(k)) {
      var i :| 0 <= i < |ps| && ps[i] == pr;
      assert IsNew(p, c, added[i]);
    }
  }

  /** The pairs the up-to-date loop assigns: one per unchanged row, its symbol with its catalog id. */
  lemma KeptPairs(p: Provider, c: Catalog, ks: seq<IexId>)
    requires Enumerates(p, c, ks)
    ensures var ps := UnchangedPairs(p, c, Group(p, c, ks, Unchanged));
            (forall k :: IsUnchanged(p, c, k) ==> (p[k].symbol, c[k].secId) in ps) &&
            (forall pr :: pr in ps ==> exists k :: IsUnchanged(p, c, k) && pr == (p[k].symbol, c[k].secId))
  {
    var kept := Group(p, c, ks, Unchanged);
    var ps := UnchangedPairs(p, c, kept);
    forall k | IsUnchanged(p, c, k) ensures (p[k].symbol, c[k].secId) in ps {
      assert k in ks;
      var j :| 0 <= j < |kept| && kept[j] == k;
      assert ps[j] == (p[k].symbol, c[k].secId);
    }
    forall pr | pr in ps ensures exists k :: IsUnchanged(p, c, k) && pr == (p[k].symbol, c[k].secId) {
      var j :| 0 <= j < |ps| && ps[j] == pr;
      assert IsUnchanged(p, c, kept[j]);
    }
  }

  /** The dictionary `update` returns is built from exactly the new and the unchanged rows' pairs. */
  lemma SecurityDictPairs(p: Provider, c: Catalog, ks: seq<IexId>, assign: IexId -> int)
    requires Enumerates(p, c, ks)
    ensures PairsFrom(p, c, assign, SymbolIds(Returns(p, assign, Group(p, c, ks, New))) +
                                    UnchangedPairs(p, c, Group(p, c, ks, Unchanged)))
  {
    InsertedPairs(p, c, ks, assign);
    KeptPairs(p, c, ks);
  }

  /** A dictionary assigned from such pairs has the symbols of the new and unchanged rows as keys. */
  lemma PairsContents(p: Provider, c: Catalog, assign: IexId -> int, ps: seq<(string, int)>)
    requires PairsFrom(p, c, assign, ps)
    ensures forall k :: IsNew(p, c, k) || IsUnchanged(p, c, k) ==> p[k].symbol in LastWins(ps)
    ensures forall s :: s in LastWins(ps) ==>
              exists k :: k in p && p[k].symbol == s &&
                          ((IsNew(p, c, k) && LastWins(ps)[s] == assign(k)) ||
                           (IsUnchanged(p, c, k) && LastWins(ps)[s] == c[k].secId))
  {
    LastWinsPairs(ps);
    forall k | IsNew(p, c, k) || IsUnchanged(p, c, k) ensures p[k].symbol in LastWins(ps) {
      if IsNew(p, c, k) {
        assert (p[k].symbol, assign(k)) in ps;
      } else {
        assert (p[k].symbol, c[k].secId) in ps;
      }
    }
    forall s | s in LastWins(ps)
      ensures exists k :: k in p && p[k].symbol == s &&
                          ((IsNew(p, c, k) && LastWins(ps)[s] == assign(k)) ||
                           (IsUnchanged(p, c, k) && LastWins(ps)[s] == c[k].secId))
    {
      assert (s, LastWins(ps)[s]) in ps;
    }
  }

  /**
    With unique provider symbols, no pair is overwritten by a different one: each new row's symbol
    keeps its assigned id and each unchanged row's symbol its catalog id.
   */
  lemma PairsValues(p: Provider, c: Catalog, assign: IexId -> int, ps: seq<(string, int)>)
    requires PairsFrom(p, c, assign, ps)
    requires forall j, k :: j in p && k in p && j != k ==> p[j].symbol != p[k].symbol
    ensures forall k :: IsNew(p, c, k) ==> p[k].symbol in LastWins(ps) && LastWins(ps)[p[k].symbol] == assign(k)
    ensures forall k :: IsUnchanged(p, c, k) ==> p[k].symbol in LastWins(ps) && LastWins(ps)[p[k].symbol] == c[k].secId
  {
    forall k | IsNew(p, c, k) ensures p[k].symbol in LastWins(ps) && LastWins(ps)[p[k].symbol] == assign(k) {
      assert forall pr :: pr in ps && pr.0 == p[k].symbol ==> pr.1 == assign(k);
      LastWinsOnly(ps, p[k].symbol, assign(k));
    }
    forall k | IsUnchanged(p, c, k) ensures p[k].symbol in LastWins(ps) && LastWins(ps)[p[k].symbol] == c[k].secId {
      assert forall pr :: pr in ps && pr.0 == p[k].symbol ==> pr.1 == c[k].secId;
      LastWinsOnly(ps, p[k].symbol, c[k].secId);
    }
  }

  /**
    The returned dictionary's keys are the symbols of the new and the unchanged securities, and each
    maps to the id the catalog assigned on insert or to the unchanged row's `sec_id`. Renamed
    securities contribute no key of their own.
   */
  lemma SecurityDictContents(p: Provider, c: Catalog, ks: seq<IexId>, assign: IexId -> int)
    requires Enumerates(p, c, ks)
    ensures forall k :: IsNew(p, c, k) || IsUnchanged(p, c, k) ==> p[k].symbol in SecurityDict(p, c, ks, assign)
    ensures forall s :: s in SecurityDict(p, c, ks, assign) ==>
              exists k :: k in p && p[k].symbol == s &&
                          ((IsNew(p, c, k) && SecurityDict(p, c, ks, assign)[s] == assign(k)) ||
                           (IsUnchanged(p, c, k) && SecurityDict(p, c, ks, assign)[s] == c[k].secId))
  {
    SecurityDictPairs(p, c, ks, assign);
    PairsContents(p, c, assign, SymbolIds(Returns(p, assign, Group(p, c, ks, New))) +
                                UnchangedPairs(p, c, Group(p, c, ks, Unchanged)));
  }

  /**
    Neither a renamed nor a deprecated security's id is a value of the returned dictionary, provided
    catalog ids are unique and inserted securities receive ids no catalog row has.
   */
  lemma SecurityDictExcludesRetired(p: Provider, c: Catalog, ks: seq<IexId>, assign: IexId -> int)
    requires Enumerates(p, c, ks)
    requires forall j, k :: j in c && k in c && j != k ==> c[j].secId != c[k].secId
    requires forall j, k :: IsNew(p, c, k) && j in c ==> assign(k) != c[j].secId
    ensures forall k :: IsRenamed(p, c, k) || IsDeprecated(p, c, k) ==> c[k].secId !in SecurityDict(p, c, ks, assign).Values
  {
    SecurityDictContents(p, c, ks, assign);
    var d := SecurityDict(p, c, ks, assign);
    forall k | IsRenamed(p, c, k) || IsDeprecated(p, c, k) ensures c[k].secId !in d.Values {
      forall s | s in d ensures d[s] != c[k].secId {
        var j :| j in p && p[j].symbol == s &&
                 ((IsNew(p, c, j) && d[s] == assign(j)) || (IsUnchanged(p, c, j) && d[s] == c[j].secId));
        if IsUnchanged(p, c, j) {
          assert j != k;
        }
      }
    }
  }

  /**
    When the provider's symbols are unique, each new security's symbol maps to its assigned id and
    each unchanged security's symbol to its catalog id.
   */
  lemma SecurityDictValues(p: Provider, c: Catalog, ks: seq<IexId>, assign: IexId -> int)
    requires Enumerates(p, c, ks)
    requires forall j, k :: j in p && k in p && j != k ==> p[j].symbol != p[k].symbol
    ensures forall k :: IsNew(p, c, k) ==>
              p[k].symbol in SecurityDict(p, c, ks, assign) && SecurityDict(p, c, ks, assign)[p[k].symbol] == assign(k)
    ensures forall k :: IsUnchanged(p, c, k) ==>
              p[k].symbol in SecurityDict(p, c, ks, assign) && SecurityDict(p, c, ks, assign)[p[k].symbol] == c[k].secId
  {
    SecurityDictPairs(p, c, ks, assign);
    PairsValues(p, c, assign, SymbolIds(Returns(p, assign, Group(p, c, ks, New))) +
                              UnchangedPairs(p, c, Group(p, c, ks, Unchanged)));
  }

  /**
    With unique provider symbols, a renamed security's new symbol is not a key of the returned
    dictionary: `update` reports only inserted and unchanged securities.
   */
  lemma RenamedOmitted(p: Provider, c: Catalog, ks: seq<IexId>, assign: IexId -> int)
    requires Enumerates(p, c, ks)
    requires forall j, k :: j in p && k in p && j != k ==> p[j].symbol != p[k].symbol
    ensures forall k :: IsRenamed(p, c, k) ==> p[k].symbol !in SecurityDict(p, c, ks, assign)
  {
    SecurityDictContents(p, c, ks, assign);
  }

  // ----- the deprecation column, as written and as intended -----

  /**
    As written, any catalog row without a provider counterpart makes `update` raise AttributeError
    before the commit, so the renames and inserts already issued are never committed.
   */
  lemma DeprecationAborts(p: Provider, c: Catalog, assign: IexId -> int, today: string, k: IexId)
    requires IsDeprecated(p, c, k)
    ensures OutcomeAsWritten(p, c, assign, today).0 == Err(AttributeError("security_id"))
    ensures Commit !in OutcomeAsWritten(p, c, assign, today).1
  {
    var ks := Merged(p, c);
    assert k in p.Keys + c.Keys;
    assert k in Group(p, c, ks, Deprecated);
    AsWrittenRaises(p, c, assign, today);
    FrontUncommitted(p, c, ks);
  }

  /** The renames and inserts hold no commit. */
  lemma FrontUncommitted(p: Provider, c: Catalog, ks: seq<IexId>)
    ensures Commit !in RenameCalls(p, c, Group(p, c, ks, Renamed)) + InsertCalls(p, Group(p, c, ks, New))
  {
    OpKinds(p, c, ks, "");
  }

  /** With a deprecated row in the merge, the written code stops after the renames and inserts. */
  lemma AsWrittenRaises(p: Provider, c: Catalog, assign: IexId -> int, today: string)
    requires Group(p, c, Merged(p, c), Deprecated) != []
    ensures var ks := Merged(p, c);
            OutcomeAsWritten(p, c, assign, today) ==
              (Err(AttributeError("security_id")), RenameCalls(p, c, Group(p, c, ks, Renamed)) + InsertCalls(p, Group(p, c, ks, New)))
  {
  }

  /** Corrected, the same input deprecates that row in a batch and ends with the commit. */
  lemma DeprecationCommits(p: Provider, c: Catalog, assign: IexId -> int, today: string, k: IexId)
    requires IsDeprecated(p, c, k)
    ensures var (r, ops) := Outcome(p, c, assign, today);
            r.Ok? && ops[|ops| - 1] == Commit && exists op :: op in ops && op.DeprecateBatch?
  {
    var ks := Merged(p, c);
    assert k in p.Keys + c.Keys;
    assert k in Group(p, c, ks, Deprecated);
    BatchOf(p, c, ks, today);
    CommitsOnceAtEnd(p, c, ks, today);
  }

  /** A group of identifiers none of which belongs to it is empty. */
  lemma {:induction false} GroupEmpty(p: Provider, c: Catalog, ks: seq<IexId>, g: Change)
    requires forall k :: k in ks ==> !Belongs(p, c, k, g)
    ensures Group(p, c, ks, g) == []
  {
    if ks != [] {
      GroupEmpty(p, c, ks[..|ks| - 1], g);
    }
  }

  /** Without catalog-only rows the written code and the corrected one agree. */
  lemma AsWrittenWithoutDeprecation(p: Provider, c: Catalog, assign: IexId -> int, today: string)
    requires forall k :: !IsDeprecated(p, c, k)
    ensures OutcomeAsWritten(p, c, assign, today) == Outcome(p, c, assign, today)
  {
    GroupEmpty(p, c, Merged(p, c), Deprecated);
  }

  /** A catalog holding one enabled security, listed under `IEX_X` with id 7. */
  function ExampleCatalog(): Catalog {
    map["IEX_X" := CatalogRow(7, "OLD")]
  }

  /** Against an empty provider frame, the example catalog's one row is the only merged row. */
  lemma ExampleMerged()
    ensures Merged(map[], ExampleCatalog()) == ["IEX_X"]
  {
    var p: Provider, c := map[], ExampleCatalog();
    assert p.Keys + c.Keys == {"IEX_X"};
    var ks := Merged(p, c);
    assert |ks| == 1 && ks[0] in ks;
  }

  /** ... and that row is catalog-only: deprecated, in no other group. */
  lemma ExampleGroups()
    ensures var p: Provider, c, ks := map[], ExampleCatalog(), ["IEX_X"];
            Group(p, c, ks, Deprecated) == ["IEX_X"] &&
            Group(p, c, ks, Renamed) == [] && Group(p, c, ks, New) == [] && Group(p, c, ks, Unchanged) == []
  {
    var p: Provider, c, ks := map[], ExampleCatalog(), ["IEX_X"];
    assert ks[..0] == [] && Group(p, c, [], Deprecated) == [];
    assert IsDeprecated(p, c, "IEX_X");
    assert !IsRenamed(p, c, "IEX_X") && !IsNew(p, c, "IEX_X") && !IsUnchanged(p, c, "IEX_X");
  }

  /**
    The smallest input that shows the discrepancy: an empty fetch result against the example
    catalog. As written, `update` raises before any statement; corrected, it deprecates that
    security with today's date and commits, and returns an empty dictionary.
   */
  lemma DeprecationExample(assign: IexId -> int)
    ensures OutcomeAsWritten(map[], ExampleCatalog(), assign, "2021-06-01") == (Err(AttributeError("security_id")), [])
    ensures Outcome(map[], ExampleCatalog(), assign, "2021-06-01") ==
            (Ok(map[]), [DeprecateBatch([("2021-06-01", 7)]), Commit])
  {
    var p: Provider, c := map[], ExampleCatalog();
    ExampleMerged();
    ExampleGroups();
    assert SecIds(c, ["IEX_X"]) == [7];
    assert DepreciateSyms("2021-06-01", [7]) == [("2021-06-01", 7)];
    assert RenameCalls(p, c, []) == [] && InsertCalls(p, []) == [];
    assert SymbolIds(Returns(p, assign, [])) == [] && UnchangedPairs(p, c, []) == [];
    var ks := ["IEX_X"];
    assert SecurityDict(p, c, ks, assign) == LastWins([]) == map[];
    assert Effects(p, c, ks, "2021-06-01") == [DeprecateBatch([("2021-06-01", 7)]), Commit];
  }
}

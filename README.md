# db_update: symbol reconciliation, bulk-load formatting and intraday flattening

This project models the sequential core of the `db_update` intraday ingestion pipeline.

- **Catalog sync.** This is `mgmt/sec_info.py`, modelled in `sec_info.dfy`.
  - `json_int_clean`.
  - The retry state machine and type allow-list of `get_iex_symbols`.
  - `update`. It outer-joins the provider's symbol list with the enabled catalog rows on `iex_id`, splits the rows into renamed / new / deprecated / unchanged, issues the catalog statements, commits, and returns the `{symbol: security_id}` dictionary.
- **Bulk loading.** This is `speedydb/__init__.py`, modelled in `speedydb.dfy`.
  - The `StringIteratorIO` pull reader, as a class whose buffer and source fields the methods update.
  - `clean_csv_value` and the `COPY ... FROM` row formatter of `iter_copy_from`.
  - The symbol-history append of `update_syms`.
  - The list and dictionary building of `depreciate_syms` and `insert_new_syms`.
- **Price flattening.** This is `priceseries/__init__.py`, modelled in `priceseries.dfy`.
  - The datetime construction and 390-row `security_id` stamping of `aggregate`.
  - The skip/stamp/order logic of `iter_intraday_api`, as a recursive function over the payload's `(ticker, entry)` pairs.

Supporting modules:

- `wrappers.dfy`: Option, Result, and CollectAll, a first-error collection.
- `py_values.dfy`: JSON scalars, Python's `str()`/`int()` on them, and decimal digits.
- `dates.dfy`: `strptime`/`str` for `%Y-%m-%d` and `%Y-%m-%d %H:%M`.
- `key_order.dfy`: Python string order, and the ascending key order of the outer merge's rows.
- `seqs.dfy`: filtering, concatenation, and `LastWins`, the dictionary that a sequence of `d[k] = v` assignments builds.
- `references.dfy`: status codes and the allow-list.
- `minute_records.dfy`: the bar and minute-record shapes.

How side effects are represented:

- **Cursor and connection.** Every statement `update` issues through the cursor and connection is recorded in order, as a `CursorOp` value:
  - `update_syms`;
  - the insert;
  - the batch deprecation;
  - the commit.
- **Inputs.** These are parameters:
  - the catalog snapshot (`get_db_symbols`);
  - the ids the database assigns on insert (`assign`);
  - today's date;
  - the HTTP replies.

Two behaviours of `update` deserve a note:

- **Renamed securities.** The module docstring (`db_update/mgmt/sec_info.py:23-24`) says `update` returns a dictionary of active symbols. The code puts only the insert results and the unchanged rows into it, so renamed securities are updated in the catalog but are missing from the dictionary. The model follows the code here (`SecInfo.RenamedOmitted`).
- **Deprecation column.** The deprecation branch reads a `security_id` column that the merged frame does not have; the catalog side names it `sec_id`. As written, `update` therefore raises AttributeError whenever some catalog row is missing from the provider list, and nothing is committed. `SecInfo.OutcomeAsWritten` and `SecInfo.UpdateAsWritten` model the code as written. `SecInfo.Outcome`, `SecInfo.Update` and `SecInfo.Reconcile` are the corrected version, which deprecates by `sec_id` and commits; the rest of the model uses it. See "## Findings".

## Model

| member | source | states |
|---|---|---|
| Wrappers.CollectAll | db_update/priceseries/__init__.py:34-38 | Collecting per-element results succeeds iff every element succeeds; the values are then the elements' results in order, and otherwise the error is that of the first failing element |
| Seqs.Filter | db_update/mgmt/sec_info.py:74-76 | The kept elements are exactly the input's elements satisfying the predicate, never more than the input |
| Seqs.FilterAppend | db_update/mgmt/sec_info.py:74-76 | Filtering a concatenation filters each part and keeps the parts in order, so the kept records keep their input order |
| Seqs.FilterOne | db_update/mgmt/sec_info.py:74-76 | A single element is kept exactly when it satisfies the predicate |
| Seqs.LastWinsAt | db_update/speedydb/__init__.py:86-91 | A dict built by successive assignments has exactly the assigned keys, and a key assigned only once holds that assignment's value |
| Seqs.LastWinsFrom | db_update/speedydb/__init__.py:86-91 | Every entry of a dict built by successive assignments is one of the assigned pairs |
| Seqs.LastWinsOnly | db_update/mgmt/sec_info.py:159-161 | A key all of whose assignments agree on a value holds that value |
| Seqs.LastWinsAppend | db_update/mgmt/sec_info.py:147-161 | Assigning the pairs of `a` and then those of `b` gives the dict of `a` overridden by the dict of `b` |
| Seqs.ConcatSplit | db_update/speedydb/__init__.py:67 | Joining a list of strings is the join of any prefix followed by the join of the rest |
| KeyOrder.BelowTransitive | db_update/mgmt/sec_info.py:131 | Python's string order is transitive |
| KeyOrder.BelowTotal | db_update/mgmt/sec_info.py:131 | Python's string order is total on distinct strings |
| KeyOrder.AscendingUnique | db_update/mgmt/sec_info.py:131 | Two strictly ascending key lists with the same elements are equal, so the merged row order is determined by the key set |
| KeyOrder.Insert | db_update/mgmt/sec_info.py:131 | Inserting a new key into an ascending list keeps it ascending and adds exactly that key |
| KeyOrder.SortedKeys | db_update/mgmt/sec_info.py:131 | The outer merge's row order lists every `iex_id` of either side exactly once, in ascending order |
| PyValues.ParseShow | db_update/speedydb/__init__.py:137-139 | `int(str(n)) == n` for every integer |
| PyValues.IntOf | db_update/speedydb/__init__.py:137-139 | `int()` of None is a TypeError, of an int is that int, of a string succeeds iff the string is an optionally signed run of digits, and is an OverflowError exactly for an infinite float |
| PyValues.StrOf | db_update/speedydb/__init__.py:73 | `str()` of an int reads back as that int |
| Dates.ParseDay | db_update/mgmt/sec_info.py:80 | A successful `%Y-%m-%d` parse gives a valid calendar date from exactly ten characters |
| Dates.ParseStamp | db_update/priceseries/__init__.py:37 | A successful `%Y-%m-%d %H:%M` parse gives a valid date and time from exactly sixteen characters |
| Dates.ShowParseDay | db_update/mgmt/sec_info.py:80 | Printing a parsed day gives back the text it was parsed from |
| Dates.ParseDayShow | db_update/mgmt/sec_info.py:80 | Parsing a printed valid date gives back that date |
| Dates.RenderParseStamp | db_update/priceseries/__init__.py:36-38 | `str(strptime(s, "%Y-%m-%d %H:%M"))` is `s` followed by `":00"` |
| Dates.ParseStampRender | db_update/priceseries/__init__.py:36-38 | Parsing the first sixteen characters of a rendered valid datetime gives it back |
| SecInfo.JsonIntClean | db_update/mgmt/sec_info.py:40-46 | A falsy element (None, 0, "", false) gives -1; a non-zero int gives itself; a non-empty string gives its integer value, or ValueError when it is not one; an infinite float gives OverflowError |
| SecInfo.JsonIntCleanShow | db_update/mgmt/sec_info.py:40-46 | A non-zero integer is returned unchanged, whether given as a number or as its decimal text |
| SecInfo.Describe | db_update/mgmt/sec_info.py:75-87 | A kept record's row has its date parsed (ValueError whenever the date is not `%Y-%m-%d`, checked before the CIK), `bool(isEnabled)` and the cleaned CIK (the cleaning's ValueError or OverflowError when a valid date's CIK fails), with symbol, id and type copied |
| SecInfo.Collected | db_update/mgmt/sec_info.py:74-91 | Collecting succeeds iff every allowed record describes successfully; a failure is a ValueError or an OverflowError |
| SecInfo.CollectedKept | db_update/mgmt/sec_info.py:74-91 | A successful collection has one row per allowed record, in reply order: row `j` describes the `j`-th allowed record |
| SecInfo.FrameOf | db_update/mgmt/sec_info.py:88-91 | The eleven columns have equal length and row `i` is the `i`-th collected record |
| SecInfo.ParseSymbols | db_update/mgmt/sec_info.py:74-91 | The column-appending loop yields the frame of the collected rows, or the first error |
| SecInfo.CollectedPrefixErr | db_update/mgmt/sec_info.py:74-87 | Once a prefix of the reply fails, the whole reply fails with that error |
| SecInfo.GetIexSymbols | db_update/mgmt/sec_info.py:48-101 | At most two requests are made, and a second one only when the first status is a server error; the result is the parsed frame of the answered reply when that reply is OK, and None otherwise |
| SecInfo.ParsedRowsAllowed | db_update/mgmt/sec_info.py:74-91 | Every row of a parsed frame comes from the reply member of that rank among the allowed ones, and its type is in the allow-list |
| SecInfo.ProviderOf | db_update/mgmt/sec_info.py:131 | The provider side of the merge has exactly the frame's `iex_id`s, each mapped to a frame row with that id |
| SecInfo.Group | db_update/mgmt/sec_info.py:134-158 | A group holds exactly the merged rows that belong to it, and no more rows than the merge |
| SecInfo.GroupIsFilter | db_update/mgmt/sec_info.py:134-158 | A group is the merged order filtered by the group's predicate, so its rows keep merged order |
| SecInfo.GroupAppend | db_update/mgmt/sec_info.py:134-158 | The group of a concatenated order is the concatenation of the parts' groups, in order |
| SecInfo.GroupDistinct | db_update/mgmt/sec_info.py:134-158 | A group of distinct rows has no repeated row |
| SecInfo.MergedEnumerates | db_update/mgmt/sec_info.py:131 | The merged frame has one row per `iex_id` of the union of both sides |
| SecInfo.GroupSizes | db_update/mgmt/sec_info.py:134-158 | The four groups' sizes add up to the number of merged rows |
| SecInfo.Classification | db_update/mgmt/sec_info.py:131-158 | Every `iex_id` of either side is in exactly one of renamed (both, symbols differ), new (`left_only`), deprecated (`right_only`) and unchanged (both, same symbol); each group is exactly that predicate's ids, without repeats |
| SecInfo.OutcomeAsWritten | db_update/mgmt/sec_info.py:131-166 | As written: the merge result raises AttributeError for the missing `security_id` column iff some catalog row is missing from the provider, and then no commit is issued; otherwise it is the corrected outcome |
| SecInfo.UpdateAsWritten | db_update/mgmt/sec_info.py:123-166 | As written: a None fetch raises before any statement; otherwise `update` raises iff some catalog `iex_id` is missing from the fetched frame, never after a commit, and when it succeeds it agrees with the corrected `update` |
| SecInfo.Update | db_update/mgmt/sec_info.py:123-166 | Corrected (deprecation by `sec_id`): a None fetch raises before any statement; otherwise the result is the security dictionary and the statements end with the single commit |
| SecInfo.Reconcile | db_update/mgmt/sec_info.py:133-166 | Corrected (deprecation by `sec_id`): the statement log is renames, then inserts, then the deprecation batch, then the commit; the dictionary is the insert results overlaid with the unchanged rows |
| SecInfo.RenameAll | db_update/mgmt/sec_info.py:134-137 | One `update_syms(sec_id, new symbol)` call per renamed row, in merge order |
| SecInfo.OverlayUnchanged | db_update/mgmt/sec_info.py:158-161 | The loop assigns each unchanged row's symbol its catalog id over the existing dict |
| SecInfo.EffectsShape | db_update/mgmt/sec_info.py:133-163 | The statement log is the rename calls, then the insert calls, then one deprecation batch iff some row is deprecated, then the commit |
| SecInfo.EffectsRenamesAt | db_update/mgmt/sec_info.py:134-137 | The log begins with the rename calls |
| SecInfo.EffectsInsertsAt | db_update/mgmt/sec_info.py:140-148 | The insert calls follow the rename calls directly |
| SecInfo.EffectsKinds | db_update/mgmt/sec_info.py:133-163 | The statement at each position is of the kind its block says, with the commit last |
| SecInfo.RenameCallsOnce | db_update/mgmt/sec_info.py:134-137 | `update_syms` is called exactly once per renamed security, with its `sec_id` and its new provider symbol |
| SecInfo.InsertedRows | db_update/mgmt/sec_info.py:140-148 | The insert statements are exactly one per new security |
| SecInfo.InsertsOf | db_update/mgmt/sec_info.py:140-148 | The log's inserts are exactly the insert block |
| SecInfo.NewSecuritiesInserted | db_update/mgmt/sec_info.py:140-148 | Each new security is inserted with its provider row and symbol history exactly `{'current': symbol}`, and every insert is of a new security |
| SecInfo.BatchData | db_update/mgmt/sec_info.py:152-155 | The batch pairs today's date with every deprecated row's `sec_id`, and with nothing else |
| SecInfo.Deprecations | db_update/mgmt/sec_info.py:152-155 | A deprecation batch is issued iff some catalog row is missing from the provider, and it covers exactly the deprecated rows' `sec_id`s |
| SecInfo.BatchOf | db_update/mgmt/sec_info.py:152-155 | The batch statement is present iff the deprecated group is non-empty and then carries that group's data |
| SecInfo.CommitsOnceAtEnd | db_update/mgmt/sec_info.py:163 | The commit is the last statement and appears nowhere else |
| SecInfo.InsertedPairs | db_update/mgmt/sec_info.py:147-148 | The insert results pair each new security's symbol with its assigned id |
| SecInfo.KeptPairs | db_update/mgmt/sec_info.py:158-161 | The unchanged pairs pair each unchanged security's symbol with its catalog `sec_id` |
| SecInfo.SecurityDictPairs | db_update/mgmt/sec_info.py:147-161 | Every assignment into the dictionary is a new or an unchanged security's pair |
| SecInfo.PairsContents | db_update/mgmt/sec_info.py:147-166 | Dictionary keys are exactly the symbols of new and unchanged securities |
| SecInfo.PairsValues | db_update/mgmt/sec_info.py:147-166 | With distinct provider symbols, a new symbol maps to its assigned id and an unchanged one to its `sec_id` |
| SecInfo.SecurityDictContents | db_update/mgmt/sec_info.py:147-166 | The returned dictionary's keys are exactly the new and unchanged securities' symbols |
| SecInfo.SecurityDictValues | db_update/mgmt/sec_info.py:147-166 | When no two provider rows share a symbol, the returned dictionary maps new symbols to inserted ids and unchanged symbols to their `sec_id` |
| SecInfo.SecurityDictExcludesRetired | db_update/mgmt/sec_info.py:147-166 | When catalog `sec_id`s are unique and no inserted id equals a catalog `sec_id`, no renamed or deprecated security's id is a value of the returned dictionary |
| SecInfo.RenamedOmitted | db_update/mgmt/sec_info.py:134-161 | When no two provider rows share a symbol, a renamed security's new symbol is not a key of the returned dictionary |
| SecInfo.DeprecationAborts | db_update/mgmt/sec_info.py:155 | As written, any deprecated row makes `update` raise AttributeError, and no commit is issued |
| SecInfo.DeprecationCommits | db_update/mgmt/sec_info.py:152-163 | Reading `sec_id`, a deprecated row leads to a batch statement and the commit |
| SecInfo.AsWrittenWithoutDeprecation | db_update/mgmt/sec_info.py:152-155 | Without deprecated rows, the code as written and the corrected code behave identically |
| SecInfo.DeprecationExample | db_update/mgmt/sec_info.py:155 | An empty provider list against a one-row catalog raises and issues nothing as written, and deprecates and commits when corrected |
| SpeedyDb.StringIteratorIO.constructor | db_update/speedydb/__init__.py:35-37 | A fresh reader's unread text is the concatenation of its source strings |
| SpeedyDb.StringIteratorIO.Read1 | db_update/speedydb/__init__.py:42-50 | `_read1` returns the first `n` characters (all for None) of the buffer, or of the next non-empty source string when the buffer is empty, and keeps the rest as the buffer; empty source strings are skipped, so it returns "" only at the end |
| SpeedyDb.StringIteratorIO.Read | db_update/speedydb/__init__.py:52-67 | `read(n)` returns the first `min(n, remaining)` characters (all of them for None or negative `n`) and leaves the rest |
| SpeedyDb.StringIteratorIO.ReadAll | db_update/speedydb/__init__.py:54-59 | `read()` returns the whole unread text and drains the reader |
| SpeedyDb.StringIteratorIO.ReadUpTo | db_update/speedydb/__init__.py:60-66 | `read(n)` returns exactly `min(n, remaining)` characters from the front |
| SpeedyDb.ReadText | db_update/speedydb/__init__.py:52-67 | The returned text followed by the rest is the text before the read |
| SpeedyDb.ReadAtMost | db_update/speedydb/__init__.py:60-67 | For `n >= 0`, `read(n)` returns at most `n` characters |
| SpeedyDb.ReadShortOnlyAtEnd | db_update/speedydb/__init__.py:61-64 | A read shorter than asked leaves nothing unread |
| SpeedyDb.ReadEmptyOnlyAtEnd | db_update/speedydb/__init__.py:43-47 | A positive read returns "" only when the text is exhausted |
| SpeedyDb.ReadAllDrains | db_update/speedydb/__init__.py:54-59 | `read()` or `read(negative)` returns everything, and every later read returns "" |
| SpeedyDb.DrainedIsPrefix | db_update/speedydb/__init__.py:52-67 | Successive reads return, concatenated, the prefix of the text as long as the total requested, or all of it |
| SpeedyDb.ReadSizeIndependence | db_update/speedydb/__init__.py:52-67 | Any two read sequences that together ask for all of it return the same text, the whole source |
| SpeedyDb.EscapeNewlines | db_update/speedydb/__init__.py:73 | Replacing newlines by backslash-n leaves no newline |
| SpeedyDb.CleanCsvValue | db_update/speedydb/__init__.py:69-73 | A cleaned value never contains a newline |
| SpeedyDb.UnescapeEscape | db_update/speedydb/__init__.py:73 | For text without backslashes, the COPY reader's unescaping inverts the newline escaping |
| SpeedyDb.CleanCsvValueRoundTrip | db_update/speedydb/__init__.py:69-73 | COPY reads `\N` back as NULL, and reads a non-null value whose `str(value)` has no backslash back as `str(value)` |
| SpeedyDb.Split | db_update/speedydb/__init__.py:130 | Splitting on the separator always yields at least one field |
| SpeedyDb.SplitJoin | db_update/speedydb/__init__.py:130 | Splitting a `|`-joined list of separator-free fields gives back the fields |
| SpeedyDb.JoinNoNewline | db_update/speedydb/__init__.py:130 | Joining newline-free fields with a non-newline separator gives a newline-free line |
| SpeedyDb.RowFields | db_update/speedydb/__init__.py:130-139 | A minute gives nine newline-free fields iff `int()` accepts its volume and trade count; otherwise it fails with `int()`'s error on the volume, or, when the volume converts, with its error on the trade count |
| SpeedyDb.FormatRow | db_update/speedydb/__init__.py:129-140 | A row ends in exactly one newline and contains no other |
| SpeedyDb.FormatRowColumns | db_update/speedydb/__init__.py:129-140 | A row splits back into the nine cleaned fields in the fixed column order |
| SpeedyDb.FormatRows | db_update/speedydb/__init__.py:129-142 | The rows succeed iff each minute's row does, one row per minute in order |
| SpeedyDb.CopyFrom | db_update/speedydb/__init__.py:143 | Reading in fixed-size chunks loads the whole text and drains the reader |
| SpeedyDb.IterCopyFrom | db_update/speedydb/__init__.py:126-143 | The loaded text is the rows concatenated in order, or the first row's error |
| SpeedyDb.AppendHistory | db_update/speedydb/__init__.py:102-105 | The new symbol becomes `'current'` and the old `'current'` goes under key `len(d)-1`; earlier entries are unchanged and the history grows by one |
| SpeedyDb.UpdateSyms | db_update/speedydb/__init__.py:93-112 | A stored history without `'current'` is a KeyError; otherwise the stored history is the appended one |
| SpeedyDb.HistoryKeys | db_update/speedydb/__init__.py:102-105 | The keys of a history with `n` past symbols are `'current'` and `0..n-1` |
| SpeedyDb.HistoryKeysSize | db_update/speedydb/__init__.py:105 | Such a key set has `n + 1` keys |
| SpeedyDb.HistoryOfWellFormed | db_update/speedydb/__init__.py:102-105 | A history built from a symbol list is well formed, with one entry per symbol |
| SpeedyDb.HistoryOfKeys | db_update/speedydb/__init__.py:102-105 | A history built from `n + 1` symbols has keys `'current'` and `0..n-1` |
| SpeedyDb.AppendHistoryOf | db_update/speedydb/__init__.py:102-105 | Appending a symbol to the history of a list is the history of the extended list |
| SpeedyDb.HistoryOfOne | db_update/mgmt/sec_info.py:142 | The history of one symbol is `{'current': symbol}` |
| SpeedyDb.Renamed | db_update/speedydb/__init__.py:93-112 | A renamed history always has a `'current'` entry |
| SpeedyDb.RenamedKeepsAll | db_update/speedydb/__init__.py:93-112 | A sequence of renames keeps every symbol a security has had, oldest first, with the latest as `'current'` |
| SpeedyDb.SymbolIds | db_update/speedydb/__init__.py:88-90 | One `(symbol, id)` pair per returned row, in order |
| SpeedyDb.InsertNewSyms | db_update/speedydb/__init__.py:75-91 | The loop builds the dict of the returned `(symbol, id)` pairs, a later duplicate symbol overwriting an earlier one |
| SpeedyDb.DepreciateSyms | db_update/speedydb/__init__.py:114-116 | One `(today, id)` pair per input id, in input order |
| PriceSeries.DateTimeOf | db_update/priceseries/__init__.py:36-38 | A bar's datetime is `"date minute:00"` when `date minute` parses as `%Y-%m-%d %H:%M`, and ValueError otherwise |
| PriceSeries.DateTimes | db_update/priceseries/__init__.py:34-38 | The datetime list has one entry per bar in order, or ValueError when any bar fails |
| PriceSeries.DateTimesFail | db_update/priceseries/__init__.py:34-38 | One failing bar makes the whole list fail with ValueError |
| PriceSeries.DateTimesAll | db_update/priceseries/__init__.py:34-38 | When each bar gives its datetime, the list is exactly those datetimes |
| PriceSeries.Aggregated | db_update/priceseries/__init__.py:31-53 | `aggregate` succeeds iff there are exactly 390 bars and every bar parses; record `i` is bar `i` with `date`/`minute` replaced by its datetime and stamped with the security id |
| PriceSeries.Aggregate | db_update/priceseries/__init__.py:31-53 | The loop and column assignment compute exactly that |
| PriceSeries.IterIntradayApi | db_update/priceseries/__init__.py:55-71 | Nothing is yielded unless the response status is OK |
| PriceSeries.FlattenAppend | db_update/priceseries/__init__.py:60-71 | Flattening a concatenated payload yields the first part's records, then the rest's; the rest runs only when the first part raised nothing |
| PriceSeries.SkippedEntry | db_update/priceseries/__init__.py:61-68 | A ticker not in the dictionary, or with empty or falsy bars, contributes nothing and raises nothing |
| PriceSeries.RecordsCarryMappedId | db_update/priceseries/__init__.py:51-69 | Each yielded record carries `sec_dict[ticker]` of some loaded ticker |
| PriceSeries.TickerBlock | db_update/priceseries/__init__.py:60-71 | A ticker's records are contiguous, right after the earlier tickers', one per bar in bar order, with its id and each bar's datetime |
| PriceSeries.TickerSplit | db_update/priceseries/__init__.py:60-71 | The output is the earlier tickers' records, then this ticker's aggregated records, then the later ones |
| PriceSeries.FlattenOne | db_update/priceseries/__init__.py:66-71 | A loaded ticker yields its aggregated records, or raises `aggregate`'s error |

## Left out

- HTTP: `requests.get` and `sleep(2)` are left out. Replies are given as status code and parsed members.
- `get_db_symbols` is left out. The catalog snapshot is a parameter.
- Database calls are left out: `cursor.execute`, `fetchone`, `execute_batch`, the table side of `copy_from`, and `conn.commit`. They are recorded as a statement log, and the ids the database assigns are a parameter function.
- `datetime.date.today()` is a parameter.
- `readable()` is left out: it is a constant `True`.
- pandas mechanics are left out, and so are float values and their rounding by `to_json(double_precision=3)`. Prices and notional are opaque values, whose `str()` rendering and `int()` truncation are part of the value.
- The commented-out 98-minute aggregation block is dead code and is left out.
- `intraday_url_endpoint`, `conn_string` and `yesterday_was_trading_day` are left out.
- `mgmt.api_symbol_groups` is not part of this model.
- `main` and `intraday_update.py` are not part of this model.
- The outer merge's row order is taken to be ascending `iex_id`, the order pandas documents for `how='outer'`. Older pandas releases with the default `sort=False` list the provider's keys in order of appearance, then the catalog-only keys. Only the order of the statement log depends on this: every reconciliation lemma holds for any order that lists each `iex_id` once.
- SecInfo.ProviderOf: when the provider list repeats an `iex_id`, pandas would produce several merged rows. The model keeps the last such row.
- Missing JSON keys (a KeyError in the source) are not modelled. Every record has every field.
- PriceSeries.DateTimeOf: a bar whose date or minute has an unpadded field (minute "9:30", say) raises ValueError in the model, so `Aggregated` fails for that ticker where `strptime` accepts the stamp and the source stamps the bar.
- Dates.ParseStamp: only zero-padded `%Y-%m-%d %H:%M` input is accepted, although `strptime` also takes unpadded fields.
- Dates.ParseDay: only zero-padded `%Y-%m-%d` input is accepted, although `strptime` also takes unpadded month and day fields such as "2021-3-4" and a space-padded day.
- SecInfo.Describe: inherits ParseDay's restriction, so a provider date with an unpadded month or day raises ValueError in the model where the source builds the row.
- PyValues.IntOf: `int()`'s acceptance of surrounding whitespace, of digit-group underscores and of non-ASCII decimal digits is not modelled.
- The catalog snapshot (`SecInfo.Catalog`) is a map keyed by `iex_id`, so it holds one enabled row per `iex_id`. Were the table to hold several enabled rows with one `iex_id`, pandas would produce several merged rows; that case is not modelled.
- SpeedyDb.UpdateSyms: when a stored history is not well formed, the key `len(d)-1` could collide with an existing entry. That case is not characterised beyond the map update.
- SpeedyDb.IterCopyFrom: the COPY consumer's behaviour on a partially produced stream, when a row fails midway, is not modelled. The model gives the whole text or the first error.
- The generator's laziness is not modelled. `iter_intraday_api` is a function that returns the records yielded plus the exception that stopped it, if any.

## Findings

| source | as written | input that shows it | evidently intended | confidence | as-written member | corrected member |
|---|---|---|---|---|---|---|
| db_update/mgmt/sec_info.py:155 | `dep_syms.security_id` reads a column the merged frame does not have; the catalog side calls it `sec_id` (line 121). Any catalog row missing from the provider list therefore raises AttributeError, after the renames and inserts and before `conn.commit()`, so the run's changes are never committed | An empty provider list against a catalog with one enabled row `IEX_X` | Deprecate by `dep_syms.sec_id`: stamp the rows, then commit | not executed | SecInfo.DeprecationAborts | SecInfo.DeprecationCommits |

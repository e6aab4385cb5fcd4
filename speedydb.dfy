/**
  The PostgreSQL helpers: a file-like reader over an iterator of strings, the COPY text-format
  row writer, the symbol-history update, and the argument lists built around the catalog
  statements. Cursor calls are left to the caller: each helper returns what it would send.
 */
module SpeedyDb {
  import opened Wrappers
  import opened PyValues
  import opened Seqs
  import opened MinuteRecords

  // ----- StringIteratorIO -----

  /** How many characters `read(n)` returns when `avail` remain: all of them for None or a negative `n`. */
  function ReadLength(n: Option<int>, avail: nat): (k: nat)
    ensures k <= avail
  {
    if n.None? || n.value < 0 || n.value >= avail then avail else n.value
  }

  /** `read(n)` on a reader whose unreturned text is `text`: the text returned and the text left. */
  function ReadText(text: string, n: Option<int>): (r: (string, string))
    ensures r.0 + r.1 == text
  {
    var k := ReadLength(n, |text|);
    (text[..k], text[k..])
  }

  /** For any `n >= 0`, `read(n)` returns at most `n` characters. */
  lemma ReadAtMost(text: string, n: int)
    requires n >= 0
    ensures |ReadText(text, Some(n)).0| <= n
  {
  }

  /** `read(n)` returns fewer than `n` characters only when nothing is left after it. */
  lemma ReadShortOnlyAtEnd(text: string, n: int)
    requires n >= 0 && |ReadText(text, Some(n)).0| < n
    ensures ReadText(text, Some(n)).1 == ""
  {
  }

  /** `read()` and `read(negative)` return all the remaining text; every later read returns ''. */
  lemma ReadAllDrains(text: string, n: Option<int>, later: Option<int>)
    requires n.None? || n.value < 0
    ensures ReadText(text, n) == (text, "")
    ensures ReadText(ReadText(text, n).1, later) == ("", "")
  {
    assert text[..|text|] == text;
  }

  /** A split of `text` whose first part has the length `read(n)` returns is what `read(n)` returns. */
  lemma ReadTextSplit(text: string, got: string, rest: string, n: Option<int>)
    requires got + rest == text && |got| == ReadLength(n, |text|)
    ensures ReadText(text, n) == (got, rest)
  {
    assert got == text[..|got|];
    assert rest == text[|got|..];
  }

  /** A bounded read of a positive size returns '' only when nothing is left. */
  lemma ReadEmptyOnlyAtEnd(text: string, n: nat)
    requires n > 0 && ReadText(text, Some(n)).0 == ""
    ensures text == ""
  {
  }

  /** The concatenation of the results of successive reads of the given sizes. */
  function Drained(text: string, sizes: seq<Option<int>>): string {
    if sizes == [] then ""
    else
      var (got, rest) := ReadText(text, sizes[0]);
      got + Drained(rest, sizes[1..])
  }

  /** How many characters the reads ask for in all; None when one of them asks for everything. */
  function Demand(sizes: seq<Option<int>>): Option<nat> {
    if sizes == [] then Some(0)
    else if sizes[0].None? || sizes[0].value < 0 then None
    else
      var rest := Demand(sizes[1..]);
      if rest.None? then None else Some(sizes[0].value + rest.value)
  }

  /** Successive reads return exactly the first `Demand(sizes)` characters of the text, in order. */
  lemma {:induction false} DrainedIsPrefix(text: string, sizes: seq<Option<int>>)
    ensures var k := if Demand(sizes).None? || Demand(sizes).value > |text| then |text| else Demand(sizes).value;
            Drained(text, sizes) == text[..k]
  {
    if sizes != [] {
      var (got, rest) := ReadText(text, sizes[0]);
      DrainedIsPrefix(rest, sizes[1..]);
      if sizes[0].None? || sizes[0].value < 0 {
        assert rest == "";
      }
    }
  }

  /**
    Read-size independence: any two sequences of reads that together ask for at least the whole text
    (or that contain a read of everything) return the same characters, namely the whole text.
   */
  lemma ReadSizeIndependence(text: string, a: seq<Option<int>>, b: seq<Option<int>>)
    requires Demand(a).None? || Demand(a).value >= |text|
    requires Demand(b).None? || Demand(b).value >= |text|
    ensures Drained(text, a) == Drained(text, b) == text
  {
    DrainedIsPrefix(text, a);
    DrainedIsPrefix(text, b);
  }

  /**
    The string `_read1` cuts its answer from, and the strings still to come after it: the buffer when
    it is non-empty, otherwise the first non-empty string the iterator yields next ("" when none is left).
   */
  function Pull(buff: string, rest: seq<string>): (r: (string, seq<string>))
    ensures r.0 + Concat(r.1) == buff + Concat(rest)
    ensures r.0 == "" ==> r.1 == [] && buff + Concat(rest) == ""
    ensures |r.1| <= |rest|
    decreases |rest|
  {
    if buff != "" || rest == [] then (buff, rest) else Pull(rest[0], rest[1..])
  }

  /**
    `StringIteratorIO`: a readable text file over an iterator of strings. The iterator is the
    sequence `source` of the strings it will yield; `taken` of them have been pulled so far.
   */
  class StringIteratorIO {
    const source: seq<string>
    var taken: nat
    /** `_buff`: the part of the last pulled string not yet returned. */
    var buff: string

    ghost predicate Valid()
      reads this
    {
      taken <= |source|
    }

    /** The text not yet returned: the buffer, then every string the iterator has still to yield. */
    ghost function Remaining(): string
      reads this
      requires Valid()
    {
      buff + Concat(source[taken..])
    }

    constructor (source: seq<string>)
      ensures Valid() && this.source == source
      ensures Remaining() == Concat(source)
    {
      this.source := source;
      taken := 0;
      buff := "";
    }

    /**
      `_read1(n)`: pull strings until the buffer is non-empty (empty strings are skipped, not taken
      for the end), then hand out at most `n` characters of it (all of it for None); '' only at the end.
     */
    method Read1(n: Option<nat>) returns (ret: string)
      requires Valid()
      modifies this
      ensures Valid()
      ensures var (chunk, rest) := old(Pull(buff, source[taken..]));
              ret == chunk[..if n.None? || n.value > |chunk| then |chunk| else n.value] &&
              buff == chunk[|ret|..] && source[taken..] == rest
      ensures ret + Remaining() == old(Remaining())
      ensures n.Some? ==> |ret| <= n.value
      ensures n != Some(0) ==> (ret == "" <==> old(Remaining()) == "")
    {
      while buff == ""
        invariant Valid()
        invariant Pull(buff, source[taken..]) == old(Pull(buff, source[taken..]))
        invariant buff + Concat(source[taken..]) == old(Remaining())
        decreases |source| - taken
      {
        if taken == |source| {
          break;
        }
        assert source[taken..] == [source[taken]] + source[taken + 1..];
        buff := source[taken];
        taken := taken + 1;
      }
      var k := if n.None? || n.value > |buff| then |buff| else n.value;
      ret := buff[..k];
      assert ret + buff[|ret|..] == buff;
      buff := buff[|ret|..];
    }

    /** `read(n)`: the next `n` characters, or all that is left when fewer remain or `n` is None or negative. */
    method Read(n: Option<int>) returns (r: string)
      requires Valid()
      modifies this
      ensures Valid()
      ensures (r, Remaining()) == ReadText(old(Remaining()), n)
    {
      if n.None? || n.value < 0 {
        r := ReadAll();
        ReadTextSplit(old(Remaining()), r, Remaining(), n);
      } else {
        r := ReadUpTo(n.value);
        ReadTextSplit(old(Remaining()), r, Remaining(), n);
      }
    }

    /** The unbounded branch of `read`: `_read1()` until it returns ''. */
    method ReadAll() returns (r: string)
      requires Valid()
      modifies this
      ensures Valid()
      ensures r == old(Remaining()) && Remaining() == ""
    {
      ghost var text := Remaining();
      var line: seq<string> := [];
      while true
        invariant Valid()
        invariant Concat(line) + Remaining() == text
        decreases |Remaining()|
      {
        var m := Read1(None);
        if m == "" {
          break;
        }
        ConcatAppend(line, m);
        line := line + [m];
      }
      r := Concat(line);
    }

    /** The bounded branch of `read`: `_read1(k)` for what is still wanted, until `n` characters or ''. */
    method ReadUpTo(n: nat) returns (r: string)
      requires Valid()
      modifies this
      ensures Valid()
      ensures r + Remaining() == old(Remaining())
      ensures |r| == if n < |old(Remaining())| then n else |old(Remaining())|
    {
      ghost var text := Remaining();
      var line: seq<string> := [];
      var k := n;
      while k > 0
        invariant Valid()
        invariant 0 <= k <= n
        invariant Concat(line) + Remaining() == text
        invariant |Concat(line)| + k == n
        decreases k
      {
        var m := Read1(Some(k));
        if m == "" {
          break;
        }
        ConcatAppend(line, m);
        k := k - |m|;
        line := line + [m];
      }
      r := Concat(line);
    }
  }

  // ----- COPY text format -----

  /** The null marker of PostgreSQL's COPY text format: a backslash followed by N. */
  const NullMarker: string := "\\N"

  /** `s.replace('\n', '\\n')`: each newline becomes a backslash followed by n. */
  function EscapeNewlines(s: string): (r: string)
    ensures '\n' !in r
  {
    if s == [] then "" else (if s[0] == '\n' then "\\n" else [s[0]]) + EscapeNewlines(s[1..])
  }

  /** `clean_csv_value`: the null marker for None, otherwise `str(value)` with its newlines escaped. */
  function CleanCsvValue(v: Value): (r: string)
    ensures '\n' !in r
  {
    if v.Null? then NullMarker else EscapeNewlines(StrOf(v))
  }

  /** How COPY's text format reads a backslash-n escape back (the only escape `clean_csv_value` writes). */
  function Unescape(s: string): string {
    if s == [] then ""
    else if |s| >= 2 && s[0] == '\\' && s[1] == 'n' then "\n" + Unescape(s[2..])
    else [s[0]] + Unescape(s[1..])
  }

  /** How COPY's text format reads one column: the null marker is NULL, anything else is unescaped. */
  function CopyColumn(f: string): Option<string> {
    if f == NullMarker then None else Some(Unescape(f))
  }

  lemma {:induction false} UnescapeEscape(s: string)
    requires '\\' !in s
    ensures Unescape(EscapeNewlines(s)) == s
  {
    if s != [] {
      UnescapeEscape(s[1..]);
      var tail := EscapeNewlines(s[1..]);
      if s[0] == '\n' {
        assert EscapeNewlines(s) == "\\n" + tail;
        assert EscapeNewlines(s)[2..] == tail;
      } else {
        assert EscapeNewlines(s) == [s[0]] + tail;
        assert EscapeNewlines(s)[1..] == tail;
      }
    }
  }

  /**
    A cleaned value reads back as NULL exactly when it was None and otherwise as `str(value)`,
    provided that text holds no backslash (which `clean_csv_value` does not escape).
   */
  lemma CleanCsvValueRoundTrip(v: Value)
    requires v.Null? || '\\' !in StrOf(v)
    ensures CopyColumn(CleanCsvValue(v)) == if v.Null? then None else Some(StrOf(v))
  {
    if !v.Null? {
      UnescapeEscape(StrOf(v));
    }
  }

  /** `sep.join(fs)`. */
  function Join(sep: char, fs: seq<string>): string {
    if |fs| == 0 then "" else if |fs| == 1 then fs[0] else fs[0] + [sep] + Join(sep, fs[1..])
  }

  /** `s.split(sep)`. */
  function Split(s: string, sep: char): (r: seq<string>)
    ensures |r| > 0
  {
    if s == [] then [""]
    else
      var rest := Split(s[1..], sep);
      if s[0] == sep then [""] + rest else [[s[0]] + rest[0]] + rest[1..]
  }

  lemma {:induction false} SplitJoined(a: string, sep: char, b: string)
    requires sep !in a
    ensures Split(a + [sep] + b, sep) == [a] + Split(b, sep)
  {
    if a != [] {
      assert (a + [sep] + b)[1..] == a[1..] + [sep] + b;
      SplitJoined(a[1..], sep, b);
      assert [a[0]] + a[1..] == a;
    } else {
      assert (a + [sep] + b)[1..] == b;
    }
  }

  lemma {:induction false} SplitNoSep(a: string, sep: char)
    requires sep !in a
    ensures Split(a, sep) == [a]
  {
    if a != [] {
      SplitNoSep(a[1..], sep);
      assert [a[0]] + a[1..] == a;
    }
  }

  /** Splitting a join gives the parts back when no part holds the separator. */
  lemma {:induction false} SplitJoin(fs: seq<string>, sep: char)
    requires |fs| > 0 && forall i :: 0 <= i < |fs| ==> sep !in fs[i]
    ensures Split(Join(sep, fs), sep) == fs
  {
    if |fs| == 1 {
      SplitNoSep(fs[0], sep);
    } else {
      SplitJoin(fs[1..], sep);
      SplitJoined(fs[0], sep, Join(sep, fs[1..]));
    }
  }

  lemma {:induction false} JoinNoNewline(sep: char, fs: seq<string>)
    requires sep != '\n' && forall i :: 0 <= i < |fs| ==> '\n' !in fs[i]
    ensures '\n' !in Join(sep, fs)
  {
    if |fs| > 1 {
      JoinNoNewline(sep, fs[1..]);
    }
  }

  /**
    The nine columns of a `security_data` row, cleaned, in COPY order: security_id, datetime, open,
    high, low, close, `int(volume)`, notional, `int(trades)`. `int()` raises first for the volume.
   */
  function RowFields(m: Minute): (r: Result<seq<string>, PyError>)
    ensures r.Ok? <==> IntOf(m.marketVolume).Ok? && IntOf(m.marketNumberOfTrades).Ok?
    ensures IntOf(m.marketVolume).Err? ==> r == Err(IntOf(m.marketVolume).error)
    ensures IntOf(m.marketVolume).Ok? && IntOf(m.marketNumberOfTrades).Err? ==>
              r == Err(IntOf(m.marketNumberOfTrades).error)
    ensures r.Ok? ==> |r.value| == 9 && forall i :: 0 <= i < 9 ==> '\n' !in r.value[i]
  {
    match IntOf(m.marketVolume)
    case Err(e) => Err(e)
    case Ok(volume) =>
      match IntOf(m.marketNumberOfTrades)
      case Err(e) => Err(e)
      case Ok(trades) =>
        var cols := [m.securityId, m.datetime, m.marketOpen, m.marketHigh, m.marketLow, m.marketClose,
                     Int(volume), m.marketNotional, Int(trades)];
        Ok(seq(|cols|, i requires 0 <= i < |cols| => CleanCsvValue(cols[i])))
  }

  /** One line of the COPY stream: the nine cleaned columns joined by '|' and one newline. */
  function FormatRow(m: Minute): (r: Result<string, PyError>)
    ensures r.Ok? <==> RowFields(m).Ok?
    ensures r.Ok? ==> |r.value| > 0 && r.value[|r.value| - 1] == '\n' && '\n' !in r.value[..|r.value| - 1]
  {
    match RowFields(m)
    case Err(e) => Err(e)
    case Ok(fs) =>
      JoinNoNewline('|', fs);
      var row := Join('|', fs) + "\n";
      assert row[..|row| - 1] == Join('|', fs);
      Ok(row)
  }

  /**
    What COPY reads from a formatted row: exactly one line, whose '|'-separated columns are the
    nine cleaned fields in order, when no cleaned field holds a '|'.
   */
  lemma FormatRowColumns(m: Minute)
    requires RowFields(m).Ok?
    requires forall i :: 0 <= i < 9 ==> '|' !in RowFields(m).value[i]
    ensures var row := FormatRow(m).value;
            Split(row[..|row| - 1], '|') == RowFields(m).value
  {
    var fs := RowFields(m).value;
    SplitJoin(fs, '|');
    var row := FormatRow(m).value;
    assert row[..|row| - 1] == Join('|', fs);
  }

  /** The formatted rows of all records, or the error of the first record whose row cannot be formatted. */
  function FormatRows(ms: seq<Minute>): (r: Result<seq<string>, PyError>)
    ensures r.Ok? <==> forall i :: 0 <= i < |ms| ==> FormatRow(ms[i]).Ok?
    ensures r.Ok? ==> |r.value| == |ms| && forall i :: 0 <= i < |ms| ==> FormatRow(ms[i]) == Ok(r.value[i])
  {
    CollectAll(ms, FormatRow)
  }

  /** The `size` argument of `copy_from`: the reader is asked for this many characters at a time. */
  const CopySize: nat := 8192

  /** How `copy_from` consumes the reader: `read(size)` until it returns ''. The loaded text is all of it. */
  method CopyFrom(reader: StringIteratorIO, size: nat) returns (loaded: string)
    requires reader.Valid() && size > 0
    modifies reader
    ensures reader.Valid() && loaded == old(reader.Remaining()) && reader.Remaining() == ""
  {
    loaded := "";
    while true
      invariant reader.Valid()
      invariant loaded + reader.Remaining() == old(reader.Remaining())
      decreases |reader.Remaining()|
    {
      ghost var before := reader.Remaining();
      var chunk := reader.Read(Some(size));
      if chunk == "" {
        ReadEmptyOnlyAtEnd(before, size);
        break;
      }
      loaded := loaded + chunk;
    }
  }

  /**
    `iter_copy_from`: wrap the formatted rows in a StringIteratorIO and let the COPY pull it in
    chunks of `CopySize`. The result is the text loaded, or the error of the first bad record.
   */
  method IterCopyFrom(ms: seq<Minute>) returns (r: Result<string, PyError>)
    ensures FormatRows(ms).Err? ==> r == Err(FormatRows(ms).error)
    ensures FormatRows(ms).Ok? ==> r == Ok(Concat(FormatRows(ms).value))
  {
    var rows := FormatRows(ms);
    if rows.Err? {
      return Err(rows.error);
    }
    var reader := new StringIteratorIO(rows.value);
    var loaded := CopyFrom(reader, CopySize);
    r := Ok(loaded);
  }

  // ----- catalog helpers -----

  /** A key of the symbol-history JSON object: "current" or an integer position. */
  datatype HistoryKey = Current | Past(n: nat)

  /** The `symbol` column of `security_info`: the JSON object of a security's trading symbols. */
  type History = map<HistoryKey, string>

  /** The history a new security is inserted with: `{'current': symbol}`. */
  function NewHistory(symbol: string): History {
    map[Current := symbol]
  }

  /** A history as the catalog keeps it: "current" plus the keys 0 to k - 1 for the k earlier symbols. */
  ghost predicate WellFormed(h: History) {
    Current in h && forall n: nat :: Past(n) in h <==> n < |h| - 1
  }

  /**
    The history `update_syms` writes back: `newSymbol` under "current" and the previous current symbol
    under the next integer key, `len(d) - 1`.
   */
  function AppendHistory(h: History, newSymbol: string): (r: History)
    requires Current in h
    ensures Current in r && r[Current] == newSymbol
    ensures Past(|h| - 1) in r && r[Past(|h| - 1)] == h[Current]
    ensures WellFormed(h) ==> WellFormed(r) && |r| == |h| + 1
    ensures WellFormed(h) ==> forall k :: k in h && k != Current ==> k in r && r[k] == h[k]
  {
    var d := h[Current := newSymbol];
    assert |d| == |h|;
    d[Past(|d| - 1) := h[Current]]
  }

  /**
    `update_syms`: read the stored history, move "current" to the next integer key and install
    `newSymbol`. KeyError when the stored object has no "current".
   */
  method UpdateSyms(stored: History, newSymbol: string) returns (r: Result<History, PyError>)
    ensures Current !in stored ==> r == Err(KeyError)
    ensures Current in stored ==> r == Ok(AppendHistory(stored, newSymbol))
  {
    var d := stored;
    if Current !in d {
      return Err(KeyError);
    }
    var lastSym := d[Current];
    d := d[Current := newSymbol];
    d := d[Past(|d| - 1) := lastSym];
    r := Ok(d);
  }

  /** The history of a security that has traded as `syms`, oldest first: the last is current, the others under 0, 1, .... */
  function HistoryOf(syms: seq<string>): (h: History)
    requires |syms| > 0
  {
    map k | k in HistoryKeys(|syms| - 1) :: if k.Current? then syms[|syms| - 1] else syms[k.n]
  }

  /** The keys of a history with `past` earlier symbols: "current" and the positions 0 .. past - 1. */
  function HistoryKeys(past: nat): (ks: set<HistoryKey>)
    ensures forall k :: k in ks <==> k == Current || (k.Past? && k.n < past)
  {
    if past == 0 then {Current} else HistoryKeys(past - 1) + {Past(past - 1)}
  }

  lemma {:induction false} HistoryKeysSize(past: nat)
    ensures |HistoryKeys(past)| == past + 1
  {
    if past > 0 {
      HistoryKeysSize(past - 1);
      assert Past(past - 1) !in HistoryKeys(past - 1);
    }
  }

  /** A history built from a symbol list is well formed and has one entry per symbol. */
  lemma HistoryOfWellFormed(syms: seq<string>)
    requires |syms| > 0
    ensures WellFormed(HistoryOf(syms)) && |HistoryOf(syms)| == |syms|
  {
    HistoryOfKeys(syms);
  }

  lemma HistoryOfKeys(syms: seq<string>)
    requires |syms| > 0
    ensures HistoryOf(syms).Keys == HistoryKeys(|syms| - 1)
    ensures |HistoryOf(syms)| == |syms|
  {
    var h := HistoryOf(syms);
    assert h.Keys == HistoryKeys(|syms| - 1);
    calc {
      |h|;
      |h.Keys|;
      |HistoryKeys(|syms| - 1)|;
      { HistoryKeysSize(|syms| - 1); }
      |syms|;
    }
  }

  /** The append law: renaming a security with history `syms` to `newSymbol` gives the history `syms + [newSymbol]`. */
  lemma AppendHistoryOf(syms: seq<string>, newSymbol: string)
    requires |syms| > 0
    ensures AppendHistory(HistoryOf(syms), newSymbol) == HistoryOf(syms + [newSymbol])
  {
    var h, b := HistoryOf(syms), HistoryOf(syms + [newSymbol]);
    HistoryOfWellFormed(syms);
    var n := |syms|;
    var a := AppendHistory(h, newSymbol);
    assert a == h[Current := newSymbol][Past(n - 1) := syms[n - 1]];
    forall k | k in b
      ensures k in a && a[k] == b[k]
    {
      if k.Past? && k.n < n - 1 {
        assert k in h && h[k] == syms[k.n];
      }
    }
    forall k | k in a
      ensures k in b
    {
      if k.Past? && k != Past(n - 1) {
        assert k in h;
      }
    }
    assert a.Keys == b.Keys;
  }

  /** The history after inserting a security as `first` and renaming it to each of `renames` in turn. */
  function Renamed(first: string, renames: seq<string>): History
    ensures Current in Renamed(first, renames)
  {
    if renames == [] then NewHistory(first)
    else AppendHistory(Renamed(first, renames[..|renames| - 1]), renames[|renames| - 1])
  }

  /** A security that has traded under one symbol only has the history a fresh insert writes. */
  lemma HistoryOfOne(symbol: string)
    ensures HistoryOf([symbol]) == NewHistory(symbol)
  {
    assert HistoryKeys(0) == {Current};
  }

  /** Every rename is kept: the history lists all former symbols in order, the latest under "current". */
  lemma {:induction false} RenamedKeepsAll(first: string, renames: seq<string>)
    ensures Renamed(first, renames) == HistoryOf([first] + renames)
  {
    if renames == [] {
      HistoryOfOne(first);
    } else {
      var init, last := renames[..|renames| - 1], renames[|renames| - 1];
      calc {
        Renamed(first, renames);
        AppendHistory(Renamed(first, init), last);
        { RenamedKeepsAll(first, init); }
        AppendHistory(HistoryOf([first] + init), last);
        { AppendHistoryOf([first] + init, last); }
        HistoryOf([first] + init + [last]);
        { assert [first] + init + [last] == [first] + renames; }
        HistoryOf([first] + renames);
      }
    }
  }

  /** The row `INSERT ... RETURNING security_id, symbol -> 'current'` sends back. */
  datatype Returned = Returned(securityId: int, current: string)

  /** The `(symbol, security_id)` assignments `insert_new_syms` performs, in order. */
  function SymbolIds(rs: seq<Returned>): (ps: seq<(string, int)>)
    ensures |ps| == |rs| && forall i :: 0 <= i < |rs| ==> ps[i] == (rs[i].current, rs[i].securityId)
  {
    if rs == [] then [] else SymbolIds(rs[..|rs| - 1]) + [(rs[|rs| - 1].current, rs[|rs| - 1].securityId)]
  }

  /**
    `insert_new_syms`: for each inserted line, record the returned symbol with its id; a later
    duplicate symbol overwrites an earlier one.
   */
  method InsertNewSyms(returned: seq<Returned>) returns (forClose: map<string, int>)
    ensures forClose == LastWins(SymbolIds(returned))
  {
    forClose := map[];
    for i := 0 to |returned|
      invariant forClose == LastWins(SymbolIds(returned[..i]))
    {
      assert returned[..i + 1][..i] == returned[..i];
      forClose := forClose[returned[i].current := returned[i].securityId];
    }
    assert returned[..|returned|] == returned;
  }

  /** `depreciate_syms`: one `(today, id)` argument pair per id, in order, for the batched UPDATE. */
  function DepreciateSyms(today: string, ids: seq<int>): (data: seq<(string, int)>)
    ensures |data| == |ids|
    ensures forall i :: 0 <= i < |ids| ==> data[i] == (today, ids[i])
  {
    if ids == [] then [] else [(today, ids[0])] + DepreciateSyms(today, ids[1..])
  }
}

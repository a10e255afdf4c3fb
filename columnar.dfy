/** readData / readData2 and buildTimeTicksFromColumns: loading CSV rows into
    the columnar index map[instant]map[ticker]TickData, and listing its
    instants. The experiment programs differ only in the record selector and
    in whether the index is keyed by cleanTicker of the raw ticker or by the
    raw ticker itself; a Reader value carries those choices. */
module Columnar {
  import opened Wrappers
  import opened Models
  import Tickers
  import Sorting
  import opened Ohlc

  /** One CSV record, column name to cell. */
  type Row = map<string, string>

  /** r[name] in Go: a missing column reads as the empty string. */
  function Field(r: Row, name: string): string
  {
    if name in r then r[name] else ""
  }

  function TickerOf(r: Row): string { Field(r, "Ticker") }

  /** The six cells NewTickDataFromSlice receives, in its order. */
  function TickFields(r: Row): (cells: seq<string>)
    ensures |cells| == 6
  {
    [Field(r, "Open"), Field(r, "High"), Field(r, "Low"), Field(r, "Close"),
     Field(r, "Open Interest"), Field(r, "Volume")]
  }

  /** Why loading stopped: every one of these is a log.Fatal exit in Go. */
  datatype ReadError =
    | SelectorFailed(ticker: string)   // the selector's own ParseTicker failed
    | BadTime(text: string)            // parseTime rejected the Date/Time cell
    | BadTick(error: TickError)        // NewTickDataFromSlice rejected the cells

  /** What a load depends on: the record selector (None when the selector
      itself aborts), whether keys go through cleanTicker, and the timestamp
      and float parsers, which are library calls. */
  datatype Reader = Reader(
    accept: string -> Option<bool>,
    normalise: bool,
    parseTime: string -> Option<int>,
    parseFloat: string -> Option<real>)

  /** The column a raw ticker is stored under. */
  function KeyOf(rd: Reader, raw: string): (key: string)
    ensures !rd.normalise ==> key == raw
    ensures rd.normalise ==> key == Tickers.CleanTicker(raw)
  {
    if rd.normalise then Tickers.CleanTicker(raw) else raw
  }

  /** What one row does to the index. */
  datatype Entry = Skipped | Stored(instant: int, key: string, tick: TickData) | Aborted(error: ReadError)

  function EntryOf(rd: Reader, r: Row): (e: Entry)
    ensures e.Skipped? <==> rd.accept(TickerOf(r)) == Some(false)
    ensures e.Stored? ==> rd.accept(TickerOf(r)) == Some(true) && e.key == KeyOf(rd, TickerOf(r))
                          && rd.parseTime(Field(r, "Date/Time")) == Some(e.instant)
                          && NewTickDataFromSlice(TickFields(r), rd.parseFloat) == Success(e.tick)
  {
    match rd.accept(TickerOf(r))
    case None => Aborted(SelectorFailed(TickerOf(r)))
    case Some(false) => Skipped
    case Some(true) =>
      match rd.parseTime(Field(r, "Date/Time"))
      case None => Aborted(BadTime(Field(r, "Date/Time")))
      case Some(t) =>
        match NewTickDataFromSlice(TickFields(r), rd.parseFloat)
        case Failure(err) => Aborted(BadTick(err))
        case Success(tick) => Stored(t, KeyOf(rd, TickerOf(r)), tick)
  }

  /** columns[key] = tick; columnarData[instant] = columns. */
  function Store(index: Index, t: int, key: string, tick: TickData): (r: Index)
    ensures t in r && key in r[t] && r[t][key] == tick
    ensures forall t' :: t' in r <==> t' in index || t' == t
  {
    index[t := (if t in index then index[t] else map[])[key := tick]]
  }

  /** What each row does, in row order. */
  function Entries(rd: Reader, rows: seq<Row>): (es: seq<Entry>)
    ensures |es| == |rows| && forall i :: 0 <= i < |rows| ==> es[i] == EntryOf(rd, rows[i])
  {
    seq(|rows|, i requires 0 <= i < |rows| => EntryOf(rd, rows[i]))
  }

  /** The index and the set of stored names after applying the entries in
      order; the first aborting entry ends the load. */
  function Apply(es: seq<Entry>, index: Index): Result<(Index, set<string>), ReadError>
    decreases |es|
  {
    if es == [] then Success((index, {}))
    else
      match Apply(es[..|es| - 1], index)
      case Failure(err) => Failure(err)
      case Success((idx, names)) =>
        match es[|es| - 1]
        case Skipped => Success((idx, names))
        case Aborted(err) => Failure(err)
        case Stored(t, key, tick) => Success((Store(idx, t, key, tick), names + {key}))
  }

  /** The outcome of loading the rows into the index. */
  function ReadRows(rd: Reader, rows: seq<Row>, index: Index): Result<(Index, set<string>), ReadError>
  {
    Apply(Entries(rd, rows), index)
  }

  /** Once a prefix has aborted, every longer prefix aborts with the same
      error. */
  lemma {:induction false} FailureSticks(es: seq<Entry>, index: Index, i: nat)
    requires i <= |es|
    requires Apply(es[..i], index).Failure?
    ensures Apply(es, index) == Apply(es[..i], index)
  {
    if i < |es| {
      var init := es[..|es| - 1];
      assert init[..i] == es[..i];
      FailureSticks(init, index, i);
    } else {
      assert es[..i] == es;
    }
  }

  /** One more entry: a skip keeps the state, an abort ends the load, a
      store updates the index and the names. */
  lemma ApplyStep(es: seq<Entry>, i: nat, index: Index)
    requires i < |es| && Apply(es[..i], index).Success?
    ensures var (idx, names) := Apply(es[..i], index).value;
            Apply(es[..i + 1], index) ==
              match es[i]
              case Skipped => Success((idx, names))
              case Aborted(err) => Failure(err)
              case Stored(t, key, tick) => Success((Store(idx, t, key, tick), names + {key}))
  {
    assert es[..i + 1][..i] == es[..i];
  }

  /** readData / readData2. Go updates the caller's map in place; here the
      updated index is returned with the sorted names. */
  method ReadData(rd: Reader, rows: seq<Row>, index: Index)
    returns (r: Result<(Index, seq<string>), ReadError>)
    ensures r.Failure? <==> ReadRows(rd, rows, index).Failure?
    ensures r.Failure? ==> r.error == ReadRows(rd, rows, index).error
    ensures r.Success? ==>
              && r.value.0 == ReadRows(rd, rows, index).value.0
              && Sorting.StrictlyIncreasingStrings(r.value.1)
              && (forall x :: x in r.value.1 <==> x in ReadRows(rd, rows, index).value.1)
  {
    ghost var es := Entries(rd, rows);
    var columnarData := index;
    var tickerNames: set<string> := {};
    for i := 0 to |rows|
      invariant Apply(es[..i], index) == Success((columnarData, tickerNames))
    {
      ApplyStep(es, i, index);
      assert es[i] == EntryOf(rd, rows[i]);
      var row := rows[i];
      var rawTicker := Field(row, "Ticker");
      var selected := rd.accept(rawTicker);
      if selected.None? {
        FailureSticks(es, index, i + 1);
        return Failure(SelectorFailed(rawTicker));
      }
      if !selected.value {
        continue;
      }
      var ticker := if rd.normalise then Tickers.CleanTicker(rawTicker) else rawTicker;
      tickerNames := tickerNames + {ticker};
      var tickTime := rd.parseTime(Field(row, "Date/Time"));
      if tickTime.None? {
        FailureSticks(es, index, i + 1);
        return Failure(BadTime(Field(row, "Date/Time")));
      }
      var tick := tickTime.value;
      var columns := if tick in columnarData then columnarData[tick] else map[];
      var tickData := NewTickDataFromSlice(TickFields(row), rd.parseFloat);
      if tickData.Failure? {
        FailureSticks(es, index, i + 1);
        return Failure(BadTick(tickData.error));
      }
      assert es[i] == Stored(tick, ticker, tickData.value);
      columns := columns[ticker := tickData.value];
      columnarData := columnarData[tick := columns];
    }
    assert es[..|rows|] == es;
    var allColumns := Sorting.SortedStrings(tickerNames);
    r := Success((columnarData, allColumns));
  }

  /** buildTimeTicksFromColumns: every instant of the index once, ascending. */
  method BuildTimeTicks(index: Index) returns (ticks: seq<int>)
    ensures Sorting.StrictlyIncreasing(ticks)
    ensures forall t :: t in ticks <==> t in index
    ensures |ticks| == |index|
  {
    ticks := Sorting.SortedInts(index.Keys);
  }

  // ---------------------------------------------------------------------
  // What the load means
  // ---------------------------------------------------------------------

  /** A load fails exactly when some entry aborts, and then with the error
      of the first such entry. */
  lemma {:induction false} FailsAtFirstAbort(es: seq<Entry>, index: Index)
    ensures Apply(es, index).Failure? <==> exists i :: 0 <= i < |es| && es[i].Aborted?
    ensures Apply(es, index).Failure? ==>
              exists i :: 0 <= i < |es| && es[i] == Aborted(Apply(es, index).error)
                          && forall j :: 0 <= j < i ==> !es[j].Aborted?
  {
    if es != [] {
      var init := es[..|es| - 1];
      FailsAtFirstAbort(init, index);
      forall j | 0 <= j < |init| ensures init[j] == es[j] { }
    }
  }

  /** The same, for rows: the load stops at the first row whose selector
      aborts, whose time does not parse or whose cells do not parse. */
  lemma RowsFailAtFirstAbort(rd: Reader, rows: seq<Row>, index: Index)
    ensures ReadRows(rd, rows, index).Failure? <==> exists i :: 0 <= i < |rows| && EntryOf(rd, rows[i]).Aborted?
    ensures ReadRows(rd, rows, index).Failure? ==>
              exists i :: 0 <= i < |rows| && EntryOf(rd, rows[i]) == Aborted(ReadRows(rd, rows, index).error)
                          && forall j :: 0 <= j < i ==> !EntryOf(rd, rows[j]).Aborted?
  {
    FailsAtFirstAbort(Entries(rd, rows), index);
  }

  /** The index's value at (t, key), if any. */
  function Lookup(index: Index, t: int, key: string): Option<TickData>
  {
    if t in index && key in index[t] then Some(index[t][key]) else None
  }

  /** Whether an entry stores at (t, key). */
  predicate StoresAt(e: Entry, t: int, key: string)
  {
    e.Stored? && e.instant == t && e.key == key
  }

  /** The reference for last-write-wins: the tick of the last entry that
      stores at (t, key), searching from the end. */
  function LastStore(es: seq<Entry>, t: int, key: string): Option<TickData>
  {
    if es == [] then None
    else
      match LastStore(es[1..], t, key)
      case Some(v) => Some(v)
      case None => if StoresAt(es[0], t, key) then Some(es[0].tick) else None
  }

  lemma {:induction false} LastStoreSnoc(es: seq<Entry>, e: Entry, t: int, key: string)
    ensures LastStore(es + [e], t, key) == if StoresAt(e, t, key) then Some(e.tick) else LastStore(es, t, key)
  {
    if es != [] {
      assert (es + [e])[1..] == es[1..] + [e];
      LastStoreSnoc(es[1..], e, t, key);
    } else {
      assert (es + [e])[1..] == [];
    }
  }

  /** Last write wins: after a successful load, each cell holds the tick of
      the last entry stored there, or what the index held before when no
      entry was. */
  lemma {:induction false} LastWriteWins(es: seq<Entry>, index: Index, t: int, key: string)
    requires Apply(es, index).Success?
    ensures Lookup(Apply(es, index).value.0, t, key) ==
              if LastStore(es, t, key).Some? then LastStore(es, t, key) else Lookup(index, t, key)
  {
    if es != [] {
      var init := es[..|es| - 1];
      assert es == init + [es[|es| - 1]];
      LastWriteWins(init, index, t, key);
      LastStoreSnoc(init, es[|es| - 1], t, key);
    }
  }

  lemma {:induction false} LastStoreFound(es: seq<Entry>, i: nat, t: int, key: string)
    requires i < |es| && StoresAt(es[i], t, key)
    ensures LastStore(es, t, key).Some?
  {
    if i > 0 {
      assert es[1..][i - 1] == es[i];
      LastStoreFound(es[1..], i - 1, t, key);
    }
  }

  /** The returned names are exactly the keys of the stored entries. */
  lemma {:induction false} NamesAreStoredKeys(es: seq<Entry>, index: Index, x: string)
    requires Apply(es, index).Success?
    ensures x in Apply(es, index).value.1 <==> exists i :: 0 <= i < |es| && es[i].Stored? && es[i].key == x
  {
    if es != [] {
      var init := es[..|es| - 1];
      NamesAreStoredKeys(init, index, x);
      if i :| 0 <= i < |es| && es[i].Stored? && es[i].key == x {
        if i < |init| {
          assert init[i] == es[i];
        }
      }
      if i :| 0 <= i < |init| && init[i].Stored? && init[i].key == x {
        assert es[i] == init[i];
      }
    }
  }

  /** Every returned name has a column in the loaded index. */
  lemma NamedColumnsExist(rd: Reader, rows: seq<Row>, index: Index, x: string)
    requires ReadRows(rd, rows, index).Success?
    requires x in ReadRows(rd, rows, index).value.1
    ensures exists t :: Lookup(ReadRows(rd, rows, index).value.0, t, x).Some?
  {
    var es := Entries(rd, rows);
    NamesAreStoredKeys(es, index, x);
    var i :| 0 <= i < |es| && es[i].Stored? && es[i].key == x;
    var t := es[i].instant;
    LastStoreFound(es, i, t, x);
    LastWriteWins(es, index, t, x);
  }

  /** Last write wins, for rows: the loaded cell at (t, key) is the tick of
      the last row stored there, or the caller's when none was. */
  lemma RowsLastWriteWins(rd: Reader, rows: seq<Row>, index: Index, t: int, key: string)
    requires ReadRows(rd, rows, index).Success?
    ensures var last := LastStore(Entries(rd, rows), t, key);
            Lookup(ReadRows(rd, rows, index).value.0, t, key) == if last.Some? then last else Lookup(index, t, key)
    ensures forall i :: 0 <= i < |rows| && StoresAt(EntryOf(rd, rows[i]), t, key) ==>
              LastStore(Entries(rd, rows), t, key).Some?
  {
    LastWriteWins(Entries(rd, rows), index, t, key);
    forall i | 0 <= i < |rows| && StoresAt(EntryOf(rd, rows[i]), t, key)
      ensures LastStore(Entries(rd, rows), t, key).Some?
    {
      LastStoreFound(Entries(rd, rows), i, t, key);
    }
  }

  /** Rows the selector rejects change nothing: appending one leaves the
      load's outcome as it was. */
  lemma RejectedRowIgnored(rd: Reader, rows: seq<Row>, r: Row, index: Index)
    requires rd.accept(TickerOf(r)) == Some(false)
    ensures ReadRows(rd, rows + [r], index) == ReadRows(rd, rows, index)
  {
    var es := Entries(rd, rows + [r]);
    assert es[..|rows|] == Entries(rd, rows);
  }

  /** After a successful load the names are the keys of exactly the rows the
      selector accepted: none of those rows can have failed to store. */
  lemma AcceptedNames(rd: Reader, rows: seq<Row>, index: Index, x: string)
    requires ReadRows(rd, rows, index).Success?
    ensures x in ReadRows(rd, rows, index).value.1 <==>
              exists i :: 0 <= i < |rows| && rd.accept(TickerOf(rows[i])) == Some(true) && KeyOf(rd, TickerOf(rows[i])) == x
  {
    var es := Entries(rd, rows);
    NamesAreStoredKeys(es, index, x);
    FailsAtFirstAbort(es, index);
    forall i | 0 <= i < |rows| && rd.accept(TickerOf(rows[i])) == Some(true)
      ensures es[i].Stored? && es[i].key == KeyOf(rd, TickerOf(rows[i]))
    {
      assert !es[i].Aborted?;
    }
  }
}

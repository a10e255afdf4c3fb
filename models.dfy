/** models/models.go: the tick record built from six CSV fields, and its
    seven-column serialised row. The experiments files carry identical
    copies of this type. */
module Models {
  import opened Wrappers
  import opened Text

  /** One observation of an instrument. Prices are compared and copied, never
      computed with, so they are reals; OI and Volume are integers. */
  datatype TickData = TickData(Open: real, High: real, Low: real, Close: real, OI: int, Volume: int)
  {
    /** ValueToUseForCompute */
    function ValueToUseForCompute(): real { Close }

    /** ToSlice: [time, Open, High, Low, Close, OI, Volume]. */
    function ToSlice(timerTick: int): (row: seq<real>)
      ensures |row| == 7
    {
      [timerTick as real, Open, High, Low, Close, OI as real, Volume as real]
    }
  }

  /** The fatal errors of NewTickDataFromSlice, in the order it checks them. */
  datatype TickError =
    | WrongFieldCount(count: nat)   // len(input) != 6
    | BadFloat(field: nat)          // strconv.ParseFloat failed on input[field]
    | BadInt(field: nat)            // strconv.ParseInt(_, 10, 64) failed on input[field]

  /** NewTickDataFromSlice. strconv.ParseFloat is a parameter; the fatal
      log exits become Failure. Fields are checked in order, so the error
      names the first field that does not parse. */
  function NewTickDataFromSlice(input: seq<string>, parseFloat: string -> Option<real>): (r: Result<TickData, TickError>)
    ensures r.Success? <==>
              |input| == 6 && (forall i :: 0 <= i < 4 ==> parseFloat(input[i]).Some?) &&
              ParseInt(input[4], Bits64).Some? && ParseInt(input[5], Bits64).Some?
    ensures |input| != 6 ==> r == Failure(WrongFieldCount(|input|))
  {
    if |input| != 6 then Failure(WrongFieldCount(|input|))
    else if parseFloat(input[0]).None? then Failure(BadFloat(0))
    else if parseFloat(input[1]).None? then Failure(BadFloat(1))
    else if parseFloat(input[2]).None? then Failure(BadFloat(2))
    else if parseFloat(input[3]).None? then Failure(BadFloat(3))
    else if ParseInt(input[4], Bits64).None? then Failure(BadInt(4))
    else if ParseInt(input[5], Bits64).None? then Failure(BadInt(5))
    else Success(TickData(parseFloat(input[0]).value, parseFloat(input[1]).value,
                          parseFloat(input[2]).value, parseFloat(input[3]).value,
                          ParseInt(input[4], Bits64).value, ParseInt(input[5], Bits64).value))
  }

  /** The inverse of ToSlice: a row whose time, OI and Volume columns hold
      whole numbers. */
  function FromSlice(row: seq<real>): Option<(int, TickData)>
  {
    if |row| == 7 && row[0].Floor as real == row[0] && row[5].Floor as real == row[5]
       && row[6].Floor as real == row[6]
    then Some((row[0].Floor, TickData(row[1], row[2], row[3], row[4], row[5].Floor, row[6].Floor)))
    else None
  }

  /** ToSlice loses nothing: the row reads back as the same time and tick. */
  lemma ToSliceRoundTrip(t: int, d: TickData)
    ensures FromSlice(d.ToSlice(t)) == Some((t, d))
  {
  }

  /** And every row that reads back is the ToSlice of what it reads as. */
  lemma FromSliceRoundTrip(row: seq<real>)
    requires FromSlice(row).Some?
    ensures var (t, d) := FromSlice(row).value; d.ToSlice(t) == row
  {
  }

  /** Parsing then serialising keeps every field in its column: input[i]
      lands in column i + 1, after the timestamp. */
  lemma FieldsKeepTheirColumns(input: seq<string>, parseFloat: string -> Option<real>, t: int)
    requires NewTickDataFromSlice(input, parseFloat).Success?
    ensures var row := NewTickDataFromSlice(input, parseFloat).value.ToSlice(t);
            && row[0] == t as real
            && (forall i :: 0 <= i < 4 ==> row[i + 1] == parseFloat(input[i]).value)
            && row[5] == ParseInt(input[4], Bits64).value as real
            && row[6] == ParseInt(input[5], Bits64).value as real
  {
  }

  /** The value used for computation is the Close column of the row. */
  lemma ComputeValueIsCloseColumn(d: TickData, t: int)
    ensures d.ValueToUseForCompute() == d.ToSlice(t)[4] == d.Close
  {
  }
}

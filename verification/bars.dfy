/**
 The data model of a cleaned OHLCV table: one `Bar` per row of the pandas
 DataFrame, and a `Frame` holding the rows together with which OHLCV columns
 the table has and the time zone of its index.
 */
module Bars {
  import opened Outcomes
  import Seqs

  /** The five OHLCV columns, in the order `['open', 'high', 'low', 'close', 'volume']`. */
  datatype Field = Open | High | Low | Close | Volume {
    function Name(): string {
      match this
      case Open => "open"
      case High => "high"
      case Low => "low"
      case Close => "close"
      case Volume => "volume"
    }
  }

  const OhlcvFields: seq<Field> := [Open, High, Low, Close, Volume]
  const AllFields: set<Field> := {Open, High, Low, Close, Volume}

  lemma EveryFieldListed()
    ensures forall f: Field :: f in AllFields
    ensures forall f: Field :: f in OhlcvFields
  {
    forall f: Field ensures f in AllFields && f in OhlcvFields {
      match f
      case Open => assert OhlcvFields[0] == f;
      case High => assert OhlcvFields[1] == f;
      case Low => assert OhlcvFields[2] == f;
      case Close => assert OhlcvFields[3] == f;
      case Volume => assert OhlcvFields[4] == f;
    }
  }

  datatype Date = Date(year: int, month: int, day: int)

  /** The local calendar reading of an instant: date, weekday (0 = Monday) and
      seconds after local midnight. It is produced by a time-zone conversion
      that this model treats as a given function. */
  datatype Label = Label(date: Date, weekday: int, second: int)

  /** A time-zone conversion: zone name and absolute instant to local reading. */
  type Localizer = (string, int) -> Label

  /** One row. `instant` is the absolute time of the index in seconds; a price or
      volume of `None` is a NaN; `other` holds any non-OHLCV columns. */
  datatype Bar = Bar(
    instant: int,
    local: Label,
    openPx: Option<real>,
    highPx: Option<real>,
    lowPx: Option<real>,
    closePx: Option<real>,
    volume: Option<real>,
    other: map<string, Option<real>>
  )

  /** A table: the OHLCV columns it has, the zone of its index (`None` for a
      naive index) and its rows in index order. */
  datatype Frame = Frame(cols: set<Field>, zone: Option<string>, bars: seq<Bar>)

  function Value(b: Bar, f: Field): Option<real> {
    match f
    case Open => b.openPx
    case High => b.highPx
    case Low => b.lowPx
    case Close => b.closePx
    case Volume => b.volume
  }

  function WithValue(b: Bar, f: Field, v: Option<real>): (r: Bar)
    ensures Value(r, f) == v
    ensures forall g :: g != f ==> Value(r, g) == Value(b, g)
    ensures r.instant == b.instant && r.local == b.local && r.other == b.other
  {
    match f
    case Open => b.(openPx := v)
    case High => b.(highPx := v)
    case Low => b.(lowPx := v)
    case Close => b.(closePx := v)
    case Volume => b.(volume := v)
  }

  /** `a < b` as pandas evaluates it: false when either side is NaN. */
  predicate Below(a: Option<real>, b: Option<real>) {
    a.Some? && b.Some? && a.value < b.value
  }

  /** The OHLCV columns the frame has, in OHLCV order (`existing_cols`). */
  function ExistingFields(cols: set<Field>): (r: seq<Field>)
    ensures forall f :: f in r <==> f in cols
    ensures |r| <= 5
  {
    EveryFieldListed();
    Seqs.Filter(OhlcvFields, f => f in cols)
  }

  /** The names of the OHLCV columns the frame lacks, in OHLCV order. */
  function MissingColumnNames(cols: set<Field>): (r: seq<string>)
    ensures |r| == 0 <==> AllFields <= cols
  {
    EveryFieldListed();
    (if Open !in cols then ["open"] else []) +
    (if High !in cols then ["high"] else []) +
    (if Low !in cols then ["low"] else []) +
    (if Close !in cols then ["close"] else []) +
    (if Volume !in cols then ["volume"] else [])
  }

  /** Every entry of every column the frame has is present. */
  predicate Complete(cols: set<Field>, bars: seq<Bar>) {
    forall i, f :: 0 <= i < |bars| && f in cols ==> Value(bars[i], f).Some?
  }

  ghost predicate TimeOrdered(bars: seq<Bar>) {
    forall i, j :: 0 <= i < j < |bars| ==> bars[i].instant <= bars[j].instant
  }

  function Instants(bars: seq<Bar>): (r: seq<int>)
    ensures |r| == |bars|
    ensures forall i :: 0 <= i < |bars| ==> r[i] == bars[i].instant
  {
    seq(|bars|, i requires 0 <= i < |bars| => bars[i].instant)
  }
}

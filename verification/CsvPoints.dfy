/** CSV export and import of data points in azext_edge/edge/providers/adr/assets.py: point dicts are
    re-keyed in place between property names and column headings. */
module CsvPoints {
  import opened Json
  import opened Text

  // ---------- point dicts ----------

  datatype Property = DataSource | Name | EventNotifier | Mode | Queue | Sampling | Capability

  /** Column headings; `Spaced` ones are written with a space, as in "Queue Size". */
  datatype Heading =
    | CapabilityId | SpacedCapabilityId | SpacedDataSource | EventName | JoinedEventNotifier
    | SpacedEventNotifier | PlainName | NodeID | ObservabilityMode | SpacedObservabilityMode
    | QueueSize | SpacedQueueSize | SamplingIntervalMilliseconds | TagName

  datatype Key = Prop(property: Property) | Head(heading: Heading) | Blank | Other(text: string)

  /** `Missing` is Python's `None`. */
  datatype Scalar = Missing | Text(text: string) | Number(n: int)

  type Entries = map<Key, Scalar>

  /** A point's entries, and its two configuration entries, each the JSON text of a dict. */
  datatype Point = Point(entries: Entries, dataConfig: Option<Entries>, eventConfig: Option<Entries>)

  function Get(d: Entries, k: Key, otherwise: Scalar): Scalar {
    if k in d then d[k] else otherwise
  }

  predicate Given(v: Scalar) {
    match v case Missing => false case Text(s) => s != "" case Number(n) => n != 0
  }

  // ---------- numbers as text ----------

  function Digit(d: nat): char
    requires d < 10
  {
    (d + 48) as char
  }

  function Digits(n: nat): (s: string)
    ensures s != "" && s[0] != '-'
  {
    if n < 10 then [Digit(n)] else Digits(n / 10) + [Digit(n % 10)]
  }

  /** `str(n)`. */
  function Decimal(n: int): string {
    if n < 0 then "-" + Digits(-n) else Digits(n)
  }

  predicate IsDigit(c: char) {
    '0' <= c <= '9'
  }

  /** Digits, with single underscores between them. */
  function ReadDigits(s: string): Option<nat> {
    if s == "" || !IsDigit(s[|s| - 1]) then None
    else
      var d := s[|s| - 1] as nat - 48;
      if |s| == 1 then Some(d)
      else
        match ReadDigits(if s[|s| - 2] == '_' then s[..|s| - 2] else s[..|s| - 1])
        case Some(n) => Some(n * 10 + d)
        case None => None
  }

  function ReadSigned(s: string): Option<int> {
    if s != "" && s[0] == '-' then
      match ReadDigits(s[1..]) case Some(n) => Some(-(n as int)) case None => None
    else
      match ReadDigits(if s != "" && s[0] == '+' then s[1..] else s) case Some(n) => Some(n as int) case None => None
  }

  /** `int(s)`, on ASCII text. */
  function ReadInt(s: string): Option<int> {
    ReadSigned(Strip(s))
  }

  lemma {:induction false} DigitsAreDigits(n: nat)
    ensures forall c | c in Digits(n) :: IsDigit(c)
  {
    if n >= 10 { DigitsAreDigits(n / 10); }
  }

  lemma {:induction false} DigitsRoundTrip(n: nat)
    ensures ReadDigits(Digits(n)) == Some(n)
  {
    if n >= 10 {
      DigitsRoundTrip(n / 10);
      DigitsAreDigits(n / 10);
      var s := Digits(n);
      assert s[..|s| - 1] == Digits(n / 10) && s[|s| - 1] == Digit(n % 10);
      assert s[|s| - 2] == Digits(n / 10)[|s| - 2] && s[|s| - 2] in Digits(n / 10);
    }
  }

  lemma NothingToStrip(s: string)
    requires s != "" && !Space(s[0]) && !Space(s[|s| - 1])
    ensures Strip(s) == s
  {
  }

  /** Every integer is read back from its text, which is never empty. */
  lemma DecimalRoundTrip(n: int)
    ensures ReadInt(Decimal(n)) == Some(n) && Decimal(n) != ""
  {
    var digits := Digits(if n < 0 then -n else n);
    DigitsRoundTrip(if n < 0 then -n else n);
    DigitsAreDigits(if n < 0 then -n else n);
    assert digits[0] in digits && digits[|digits| - 1] in digits;
    assert Decimal(n)[|Decimal(n)| - 1] == digits[|digits| - 1];
    if n < 0 { assert Decimal(n)[1..] == digits; }
    NothingToStrip(Decimal(n));
  }

  // ---------- the two heading tables ----------

  /** The import table. */
  function Meaning(h: Heading): Property {
    match h
    case CapabilityId => Capability
    case SpacedCapabilityId => Capability
    case SpacedDataSource => DataSource
    case EventName => Name
    case JoinedEventNotifier => EventNotifier
    case SpacedEventNotifier => EventNotifier
    case PlainName => Name
    case NodeID => DataSource
    case ObservabilityMode => Mode
    case SpacedObservabilityMode => Mode
    case QueueSize => Queue
    case SpacedQueueSize => Queue
    case SamplingIntervalMilliseconds => Sampling
    case TagName => Name
  }

  const HEADINGS: seq<Heading> :=
    [CapabilityId, SpacedCapabilityId, SpacedDataSource, EventName, JoinedEventNotifier, SpacedEventNotifier,
     PlainName, NodeID, ObservabilityMode, SpacedObservabilityMode, QueueSize, SpacedQueueSize,
     SamplingIntervalMilliseconds, TagName]

  datatype Column = Column(property: Property, heading: Heading)

  /** `_build_ordered_csv_conversion_map`; events have no sampling column in the portal's form. */
  function Columns(dataPoints: bool, portal: bool): seq<Column> {
    match (dataPoints, portal)
    case (true, true) =>
      [Column(DataSource, NodeID), Column(Name, TagName), Column(Queue, QueueSize), Column(Mode, ObservabilityMode),
       Column(Sampling, SamplingIntervalMilliseconds)]
    case (true, false) =>
      [Column(DataSource, SpacedDataSource), Column(Name, PlainName), Column(Queue, SpacedQueueSize),
       Column(Mode, SpacedObservabilityMode), Column(Sampling, SamplingIntervalMilliseconds),
       Column(Capability, SpacedCapabilityId)]
    case (false, true) =>
      [Column(EventNotifier, JoinedEventNotifier), Column(Name, EventName), Column(Queue, QueueSize),
       Column(Mode, ObservabilityMode)]
    case (false, false) =>
      [Column(EventNotifier, SpacedEventNotifier), Column(Name, PlainName), Column(Queue, SpacedQueueSize),
       Column(Mode, SpacedObservabilityMode), Column(Sampling, SamplingIntervalMilliseconds),
       Column(Capability, SpacedCapabilityId)]
  }

  predicate DistinctColumns(columns: seq<Column>) {
    forall i, j | 0 <= i < j < |columns| ::
      columns[i].property != columns[j].property && columns[i].heading != columns[j].heading
  }

  /** Every heading means the property of its column. */
  predicate Readable(columns: seq<Column>) {
    forall i | 0 <= i < |columns| :: Meaning(columns[i].heading) == columns[i].property
  }

  /** Importing reads every heading back as the property it was exported for, in all four forms. */
  lemma TablesInverse(dataPoints: bool, portal: bool)
    ensures Readable(Columns(dataPoints, portal)) && DistinctColumns(Columns(dataPoints, portal))
  {
    var cs := Columns(dataPoints, portal);
    if dataPoints && portal { FiveColumns(cs); } else if portal { FourColumns(cs); } else { SixColumns(cs); }
  }

  lemma FourColumns(cs: seq<Column>)
    requires cs == Columns(false, true)
    ensures Readable(cs) && DistinctColumns(cs)
  {
  }

  lemma FiveColumns(cs: seq<Column>)
    requires cs == Columns(true, true)
    ensures Readable(cs) && DistinctColumns(cs)
  {
  }

  lemma SixColumns(cs: seq<Column>)
    requires cs == Columns(true, false) || cs == Columns(false, false)
    ensures Readable(cs) && DistinctColumns(cs)
  {
  }

  lemma KnownHeadings()
    ensures forall h: Heading :: h in HEADINGS
    ensures forall i, j | 0 <= i < j < |HEADINGS| :: HEADINGS[i] != HEADINGS[j]
  {
    forall h: Heading ensures h in HEADINGS {
      KnownHeading(h);
    }
    forall i, j | 0 <= i < j < |HEADINGS| ensures HEADINGS[i] != HEADINGS[j] {
      KnownHeading(HEADINGS[i]);
      KnownHeading(HEADINGS[j]);
    }
  }

  function Place(h: Heading): nat {
    match h
    case CapabilityId => 0
    case SpacedCapabilityId => 1
    case SpacedDataSource => 2
    case EventName => 3
    case JoinedEventNotifier => 4
    case SpacedEventNotifier => 5
    case PlainName => 6
    case NodeID => 7
    case ObservabilityMode => 8
    case SpacedObservabilityMode => 9
    case QueueSize => 10
    case SpacedQueueSize => 11
    case SamplingIntervalMilliseconds => 12
    case TagName => 13
  }

  lemma KnownHeading(h: Heading)
    ensures Place(h) < |HEADINGS| && HEADINGS[Place(h)] == h
  {
  }

  // ---------- export ----------

  /** The re-keying loop: own value, else the default, else `None`. */
  function Headed(d: Entries, columns: seq<Column>, defaults: Entries): Entries {
    if columns == [] then d
    else
      var n := |columns| - 1;
      var r := Headed(d, columns[..n], defaults);
      var p, h := Prop(columns[n].property), Head(columns[n].heading);
      (r - {p})[h := Get(r, p, Get(defaults, p, Missing))]
  }

  /** What a point holds once its configuration is unpacked and the unexported entries are dropped. */
  function Unpacked(point: Point, dataPoints: bool, portal: bool): Entries {
    var config := if dataPoints then point.dataConfig else point.eventConfig;
    point.entries + (match config case Some(d) => d case None => map[])
    - (if portal then {Prop(Capability)} else {})
    - (if portal && !dataPoints then {Prop(Sampling)} else {})
  }

  /** The defaults only the portal's form uses. */
  function InForce(portal: bool, defaults: Entries): Entries {
    if portal then defaults else map[]
  }

  /** `_convert_sub_points_to_csv` on one point. */
  function Exported(point: Point, dataPoints: bool, portal: bool, defaults: Entries): Point {
    Point(Headed(Unpacked(point, dataPoints, portal), Columns(dataPoints, portal), InForce(portal, defaults)),
          if dataPoints then None else point.dataConfig,
          if dataPoints then point.eventConfig else None)
  }

  // ---------- the file ----------

  function CellText(v: Scalar): string {
    match v case Missing => "" case Text(s) => s case Number(n) => Decimal(n)
  }

  function HeadKeys(columns: seq<Column>): set<Key> {
    set c | c in columns :: Head(c.heading)
  }

  /** A row as it is read back; `None` is the writer's ValueError for a key that is no column. */
  function Row(point: Point, columns: seq<Column>): Option<Entries> {
    if point.entries.Keys <= HeadKeys(columns) && point.dataConfig.None? && point.eventConfig.None? then
      Some(RowText(point.entries, columns))
    else None
  }

  function RowText(d: Entries, columns: seq<Column>): Entries {
    map k | k in HeadKeys(columns) :: Text(CellText(Get(d, k, Missing)))
  }

  // ---------- import ----------

  function Upper(c: char): char {
    if 'a' <= c <= 'z' then (c as int - 32) as char else c
  }

  /** `str.capitalize` on ASCII text. */
  function Capitalize(s: string): string {
    if s == "" then "" else [Upper(s[0])] + Lower(s[1..])
  }

  function Renamed(d: Entries, headings: seq<Heading>): Entries {
    if headings == [] then d
    else
      var n := |headings| - 1;
      var r := Renamed(d, headings[..n]);
      var h := Head(headings[n]);
      if h in r then (r - {h})[Prop(Meaning(headings[n])) := r[h]] else r
  }

  /** A setting moved to the configuration: absent when empty, an error when it is no number. */
  function ReadSetting(v: Scalar): Option<Option<int>> {
    if !Given(v) then Some(None)
    else match v
      case Text(s) => (match ReadInt(s) case Some(n) => Some(Some(n)) case None => None)
      case Number(n) => Some(Some(n))
      case Missing => None
  }

  function ConfigOf(queue: Option<int>, sampling: Option<int>): Entries {
    (if queue.Some? then map[Prop(Queue) := Number(queue.value)] else map[])
    + if sampling.Some? then map[Prop(Sampling) := Number(sampling.value)] else map[]
  }

  /** The mode capitalised, if there is one; `None` is the error of capitalising a number. */
  function Capitalized(d: Entries): Option<Entries> {
    var mode := Get(d, Prop(Mode), Missing);
    if !Given(mode) then Some(d)
    else if !mode.Text? then None
    else Some(d[Prop(Mode) := Text(Capitalize(mode.text))])
  }

  /** A non-empty configuration is stored for the kind of point this is. */
  function Configured(e: Entries, point: Point, config: Entries): Point {
    if config == map[] then Point(e, point.dataConfig, point.eventConfig)
    else if Prop(DataSource) in e then Point(e, Some(config), point.eventConfig)
    else Point(e, point.dataConfig, Some(config))
  }

  const SETTINGS: set<Key> := {Prop(Sampling), Prop(Queue)}

  /** `_convert_sub_points_from_csv` on one point; `None` is an error raised on it. */
  function Imported(point: Point): Option<Point> {
    match Capitalized(Renamed(point.entries - {Blank}, HEADINGS))
    case None => None
    case Some(d) =>
      match (ReadSetting(Get(d, Prop(Sampling), Missing)), ReadSetting(Get(d, Prop(Queue), Missing)))
      case (Some(sampling), Some(queue)) => Some(Configured(d - SETTINGS, point, ConfigOf(queue, sampling)))
      case _ => None
  }

  // ---------- the conversions, in place ----------

  /** A point dict of the list the conversions are given. */
  class PointDict {
    var entries: Entries
    var dataConfig: Option<Entries>
    var eventConfig: Option<Entries>

    function Value(): Point
      reads this
    {
      Point(entries, dataConfig, eventConfig)
    }

    method Unpack(dataPoints: bool, portal: bool)
      modifies this
      ensures Value() == Point(Unpacked(old(Value()), dataPoints, portal),
                               if dataPoints then None else old(dataConfig),
                               if dataPoints then old(eventConfig) else None)
    {
      if dataPoints {
        if dataConfig.Some? { entries := entries + dataConfig.value; }
        dataConfig := None;
      } else {
        if eventConfig.Some? { entries := entries + eventConfig.value; }
        eventConfig := None;
      }
      if portal {
        entries := entries - {Prop(Capability)};
        if !dataPoints { entries := entries - {Prop(Sampling)}; }
      }
    }

    method Rekey(columns: seq<Column>, inForce: Entries)
      modifies this`entries
      ensures entries == Headed(old(entries), columns, inForce)
    {
      for i := 0 to |columns|
        invariant entries == Headed(old(entries), columns[..i], inForce)
      {
        var p, h := Prop(columns[i].property), Head(columns[i].heading);
        var v := Get(entries, p, Get(inForce, p, Missing));
        entries := entries - {p};
        entries := entries[h := v];
        assert columns[..i + 1][..i] == columns[..i];
      }
      assert columns[..|columns|] == columns;
    }

    method Rename()
      modifies this`entries
      ensures entries == Renamed(old(entries) - {Blank}, HEADINGS)
    {
      entries := entries - {Blank};
      ghost var start := entries;
      for i := 0 to |HEADINGS|
        invariant entries == Renamed(start, HEADINGS[..i])
      {
        var h := Head(HEADINGS[i]);
        if h in entries {
          var v := entries[h];
          entries := entries - {h};
          entries := entries[Prop(Meaning(HEADINGS[i])) := v];
        }
        assert HEADINGS[..i + 1][..i] == HEADINGS[..i];
      }
      assert HEADINGS[..|HEADINGS|] == HEADINGS;
    }

    /** `false` is an error raised on this point. */
    method FromHeadings() returns (ok: bool)
      modifies this
      ensures ok <==> Imported(old(Value())).Some?
      ensures ok ==> Value() == Imported(old(Value())).value
    {
      Rename();
      var mode := Get(entries, Prop(Mode), Missing);
      if Given(mode) {
        if !mode.Text? { return false; }
        entries := entries[Prop(Mode) := Text(Capitalize(mode.text))];
      }
      var sampling := ReadSetting(Get(entries, Prop(Sampling), Missing));
      if sampling.None? { return false; }
      entries := entries - {Prop(Sampling)};
      var queue := ReadSetting(Get(entries, Prop(Queue), Missing));
      if queue.None? { return false; }
      entries := entries - {Prop(Queue)};
      var config := ConfigOf(queue.value, sampling.value);
      if config != map[] {
        if Prop(DataSource) in entries { dataConfig := Some(config); } else { eventConfig := Some(config); }
      }
      ok := true;
    }
  }

  /** The dicts of a list are different objects. */
  predicate Separate(points: seq<PointDict>) {
    forall i, j | 0 <= i < j < |points| :: points[i] != points[j]
  }

  method ConvertToCsv(
    points: seq<PointDict>, dataPoints: bool, portal: bool, defaults: Entries) returns (headings: seq<Heading>)
    requires Separate(points)
    modifies points
    ensures forall i | 0 <= i < |points| ::
              points[i].Value() == Exported(old(points[i].Value()), dataPoints, portal, defaults)
    ensures |headings| == |Columns(dataPoints, portal)|
    ensures forall i | 0 <= i < |headings| :: headings[i] == Columns(dataPoints, portal)[i].heading
  {
    var columns := Columns(dataPoints, portal);
    var inForce := InForce(portal, defaults);
    for i := 0 to |points|
      invariant forall j | 0 <= j < i ::
          points[j].Value() == Exported(old(points[j].Value()), dataPoints, portal, defaults)
      invariant forall j | i <= j < |points| :: points[j].Value() == old(points[j].Value())
    {
      points[i].Unpack(dataPoints, portal);
      points[i].Rekey(columns, inForce);
    }
    headings := seq(|columns|, i requires 0 <= i < |columns| => columns[i].heading);
  }

  /** Stops at the first point an error is raised on. */
  method ConvertFromCsv(points: seq<PointDict>) returns (ok: bool)
    requires Separate(points)
    modifies points
    ensures ok <==> forall i | 0 <= i < |points| :: Imported(old(points[i].Value())).Some?
    ensures ok ==> forall i | 0 <= i < |points| :: points[i].Value() == Imported(old(points[i].Value())).value
  {
    for i := 0 to |points|
      invariant forall j | 0 <= j < i ::
                  Imported(old(points[j].Value())).Some? && points[j].Value() == Imported(old(points[j].Value())).value
      invariant forall j | i <= j < |points| :: points[j].Value() == old(points[j].Value())
    {
      var converted := points[i].FromHeadings();
      if !converted { return false; }
    }
    ok := true;
  }
}

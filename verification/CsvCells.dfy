/** The cells of an exported file and what is read back from them, in the words of the tables of
    azext_edge/edge/providers/adr/assets.py: which heading stands for which property, and which of the
    configuration, the point and the defaults a cell shows. */
module CsvCells {
  import opened Json
  import opened Text
  import opened CsvPoints
  import opened CsvRoundTrip

  // ---------- the tables ----------

  function PropertyText(p: Property): string {
    match p
    case DataSource => "dataSource"
    case Name => "name"
    case EventNotifier => "eventNotifier"
    case Mode => "observabilityMode"
    case Queue => "queueSize"
    case Sampling => "samplingInterval"
    case Capability => "capabilityId"
  }

  function HeadingText(h: Heading): string {
    match h
    case CapabilityId => "CapabilityId"
    case SpacedCapabilityId => "Capability Id"
    case SpacedDataSource => "Data Source"
    case EventName => "EventName"
    case JoinedEventNotifier => "EventNotifier"
    case SpacedEventNotifier => "Event Notifier"
    case PlainName => "Name"
    case NodeID => "NodeID"
    case ObservabilityMode => "ObservabilityMode"
    case SpacedObservabilityMode => "Observability Mode"
    case QueueSize => "QueueSize"
    case SpacedQueueSize => "Queue Size"
    case SamplingIntervalMilliseconds => "Sampling Interval Milliseconds"
    case TagName => "TagName"
  }

  function ColumnTexts(columns: seq<Column>): seq<(string, string)> {
    seq(|columns|, i requires 0 <= i < |columns| =>
      (PropertyText(columns[i].property), HeadingText(columns[i].heading)))
  }

  /** The export table: properties and headings in the order of the columns. */
  lemma ExportTable(dataPoints: bool, portal: bool)
    ensures var first := if dataPoints then ("dataSource", if portal then "NodeID" else "Data Source")
                         else ("eventNotifier", if portal then "EventNotifier" else "Event Notifier");
            var name := if !portal then "Name" else if dataPoints then "TagName" else "EventName";
            ColumnTexts(Columns(dataPoints, portal))
            == [first, ("name", name), ("queueSize", if portal then "QueueSize" else "Queue Size"),
                ("observabilityMode", if portal then "ObservabilityMode" else "Observability Mode")]
               + (if portal && !dataPoints then [] else [("samplingInterval", "Sampling Interval Milliseconds")])
               + (if portal then [] else [("capabilityId", "Capability Id")])
  {
  }

  /** The import table, in the order it is gone through. */
  lemma ImportTable()
    ensures ColumnTexts(seq(|HEADINGS|, i requires 0 <= i < |HEADINGS| => Column(Meaning(HEADINGS[i]), HEADINGS[i])))
            == [("capabilityId", "CapabilityId"), ("capabilityId", "Capability Id"), ("dataSource", "Data Source"),
                ("name", "EventName"), ("eventNotifier", "EventNotifier"), ("eventNotifier", "Event Notifier"),
                ("name", "Name"), ("dataSource", "NodeID"), ("observabilityMode", "ObservabilityMode"),
                ("observabilityMode", "Observability Mode"), ("queueSize", "QueueSize"), ("queueSize", "Queue Size"),
                ("samplingInterval", "Sampling Interval Milliseconds"), ("name", "TagName")]
  {
  }

  // ---------- the cells ----------

  /** The configuration of the kind of point exported. */
  function OwnConfig(point: Point, dataPoints: bool): Entries {
    match (if dataPoints then point.dataConfig else point.eventConfig) case Some(d) => d case None => map[]
  }

  /** The configuration's value, else the point's own, else, in the portal's form, the default, else none. */
  function ValueFor(point: Point, dataPoints: bool, portal: bool, defaults: Entries, p: Property): Scalar {
    if Prop(p) in OwnConfig(point, dataPoints) then OwnConfig(point, dataPoints)[Prop(p)]
    else if Prop(p) in point.entries then point.entries[Prop(p)]
    else if portal && Prop(p) in defaults then defaults[Prop(p)]
    else Missing
  }

  lemma EffectiveIs(point: Point, dataPoints: bool, portal: bool, defaults: Entries, p: Property)
    requires p in Properties(Columns(dataPoints, portal))
    ensures Effective(point, dataPoints, portal, defaults, p) == ValueFor(point, dataPoints, portal, defaults, p)
  {
    ColumnFacts(dataPoints, portal);
  }

  /** The value in force, case by case. */
  lemma ValueForIs(point: Point, dataPoints: bool, portal: bool, defaults: Entries, p: Property, config: Entries)
    requires (if dataPoints then point.dataConfig else point.eventConfig) in {Some(config), None}
    ensures var v, k := ValueFor(point, dataPoints, portal, defaults, p), Prop(p);
            var configured := (if dataPoints then point.dataConfig else point.eventConfig).Some? && k in config;
            && (configured ==> v == config[k])
            && (!configured && k in point.entries ==> v == point.entries[k])
            && (!configured && k !in point.entries && portal && k in defaults ==> v == defaults[k])
            && (!configured && k !in point.entries && !(portal && k in defaults) ==> v == Missing)
  {
  }

  /** What is left over once the columns are taken out: a key of the point or its configuration that is neither
      exported nor dropped by the portal's form. */
  ghost predicate LeftOver(point: Point, dataPoints: bool, portal: bool, k: Key) {
    && (k in point.entries || k in OwnConfig(point, dataPoints))
    && (forall c | c in Columns(dataPoints, portal) :: k != Prop(c.property) && k != Head(c.heading))
    && !(portal && k == Prop(Capability)) && !(portal && !dataPoints && k == Prop(Sampling))
  }

  lemma UnpackedKeys(point: Point, dataPoints: bool, portal: bool, k: Key)
    ensures k in Unpacked(point, dataPoints, portal)
            <==> && (k in point.entries || k in OwnConfig(point, dataPoints))
                 && !(portal && k == Prop(Capability)) && !(portal && !dataPoints && k == Prop(Sampling))
  {
  }

  /** Main theorem: the file can be written exactly when the point has no configuration of the other kind and
      nothing is left over. The cell of each column is then the text of the value in force. */
  lemma CellsAre(point: Point, dataPoints: bool, portal: bool, defaults: Entries)
    ensures var columns := Columns(dataPoints, portal);
            var row := Row(Exported(point, dataPoints, portal, defaults), columns);
            && (row.Some? <==>
                  && (if dataPoints then point.eventConfig else point.dataConfig) == None
                  && forall k :: !LeftOver(point, dataPoints, portal, k))
            && (row.Some? ==>
                  && row.value.Keys == (set c | c in columns :: Head(c.heading))
                  && forall c | c in columns ::
                       Shows(row.value, c, ValueFor(point, dataPoints, portal, defaults, c.property)))
  {
    var columns := Columns(dataPoints, portal);
    var row := Row(Exported(point, dataPoints, portal, defaults), columns);
    ExportWrites(point, dataPoints, portal, defaults);
    NothingLeft(point, dataPoints, portal);
    if row.Some? {
      forall c | c in columns ensures Shows(row.value, c, ValueFor(point, dataPoints, portal, defaults, c.property)) {
        CellIs(point, dataPoints, portal, defaults, row.value, c);
      }
    }
  }

  /** The cell under a column's heading is the text of a value. */
  predicate Shows(row: Entries, c: Column, v: Scalar) {
    Head(c.heading) in row && row[Head(c.heading)] == Text(CellText(v))
  }

  lemma CellIs(point: Point, dataPoints: bool, portal: bool, defaults: Entries, row: Entries, c: Column)
    requires Holds(row, Columns(dataPoints, portal), Cells(point, dataPoints, portal, defaults))
    requires c in Columns(dataPoints, portal)
    ensures Shows(row, c, ValueFor(point, dataPoints, portal, defaults, c.property))
  {
    var columns := Columns(dataPoints, portal);
    var i :| 0 <= i < |columns| && columns[i] == c;
    ColumnKeys(columns);
    EffectiveIs(point, dataPoints, portal, defaults, c.property);
    CellFor(point, dataPoints, portal, defaults, c.property);
  }

  lemma CellFor(point: Point, dataPoints: bool, portal: bool, defaults: Entries, p: Property)
    requires p in Properties(Columns(dataPoints, portal))
    ensures p in Cells(point, dataPoints, portal, defaults)
    ensures Cells(point, dataPoints, portal, defaults)[p] == CellText(Effective(point, dataPoints, portal, defaults, p))
  {
  }

  lemma NothingLeft(point: Point, dataPoints: bool, portal: bool)
    ensures (forall k :: !LeftOver(point, dataPoints, portal, k))
            <==> Unpacked(point, dataPoints, portal).Keys
                 <= PropKeys(Columns(dataPoints, portal)) + HeadKeys(Columns(dataPoints, portal))
  {
    forall k: Key
      ensures LeftOver(point, dataPoints, portal, k)
              <==> k in Unpacked(point, dataPoints, portal)
                   && k !in PropKeys(Columns(dataPoints, portal)) + HeadKeys(Columns(dataPoints, portal))
    {
      UnpackedKeys(point, dataPoints, portal, k);
      InTables(Columns(dataPoints, portal), k);
    }
  }

  lemma InTables(columns: seq<Column>, k: Key)
    ensures k in PropKeys(columns) + HeadKeys(columns)
            <==> exists c | c in columns :: k == Prop(c.property) || k == Head(c.heading)
  {
  }

  /** Main theorem: what an export leaves in a point dict, whether or not it can be written: the value in force
      under each heading, what is left over as it was, and no configuration of its own kind. */
  lemma ExportedIs(point: Point, dataPoints: bool, portal: bool, defaults: Entries)
    ensures var e := Exported(point, dataPoints, portal, defaults);
            && (forall c | c in Columns(dataPoints, portal) ::
                  Under(e.entries, Head(c.heading), ValueFor(point, dataPoints, portal, defaults, c.property)))
            && (forall k | LeftOver(point, dataPoints, portal, k) ::
                  Under(e.entries, k, Get(OwnConfig(point, dataPoints), k, Get(point.entries, k, Missing))))
            && (forall k | k in e.entries ::
                  LeftOver(point, dataPoints, portal, k)
                  || exists c | c in Columns(dataPoints, portal) :: k == Head(c.heading))
            && e.dataConfig == (if dataPoints then None else point.dataConfig)
            && e.eventConfig == (if dataPoints then point.eventConfig else None)
  {
    forall c | c in Columns(dataPoints, portal)
      ensures Under(Exported(point, dataPoints, portal, defaults).entries, Head(c.heading),
                    ValueFor(point, dataPoints, portal, defaults, c.property))
    {
      HeadingIs(point, dataPoints, portal, defaults, c);
    }
    forall k: Key {
      OtherIs(point, dataPoints, portal, defaults, k);
    }
  }

  predicate Under(d: Entries, k: Key, v: Scalar) {
    k in d && d[k] == v
  }

  lemma HeadingIs(point: Point, dataPoints: bool, portal: bool, defaults: Entries, c: Column)
    requires c in Columns(dataPoints, portal)
    ensures Under(Exported(point, dataPoints, portal, defaults).entries, Head(c.heading),
                  ValueFor(point, dataPoints, portal, defaults, c.property))
  {
    var columns := Columns(dataPoints, portal);
    TablesInverse(dataPoints, portal);
    HeadedIs(Unpacked(point, dataPoints, portal), columns, InForce(portal, defaults));
    var i :| 0 <= i < |columns| && columns[i] == c;
    ColumnKeys(columns);
    EffectiveIs(point, dataPoints, portal, defaults, c.property);
  }

  lemma OtherIs(point: Point, dataPoints: bool, portal: bool, defaults: Entries, k: Key)
    ensures var e := Exported(point, dataPoints, portal, defaults).entries;
            && (LeftOver(point, dataPoints, portal, k) ==>
                  Under(e, k, Get(OwnConfig(point, dataPoints), k, Get(point.entries, k, Missing))))
            && (k in e ==>
                  LeftOver(point, dataPoints, portal, k)
                  || exists c | c in Columns(dataPoints, portal) :: k == Head(c.heading))
  {
    TablesInverse(dataPoints, portal);
    HeadedIs(Unpacked(point, dataPoints, portal), Columns(dataPoints, portal), InForce(portal, defaults));
    UnpackedKeys(point, dataPoints, portal, k);
    InTables(Columns(dataPoints, portal), k);
  }

  /** The texts of the three kinds of value. */
  lemma CellTextIs(s: string, n: int)
    requires n >= 0
    ensures CellText(Missing) == "" && CellText(Text(s)) == s
    ensures CellText(Number(n)) == Digits(n) && (n > 0 ==> CellText(Number(-n)) == "-" + Digits(n))
  {
  }

  // ---------- decimal text by place value ----------

  function Ten(i: nat): nat {
    if i == 0 then 1 else 10 * Ten(i - 1)
  }

  /** `n` without its last `i` digits. */
  function Dropped(n: nat, i: nat): nat {
    if i == 0 then n else Dropped(n / 10, i - 1)
  }

  /** Digit `i` from the right is the last one once those behind it are dropped. */
  lemma {:induction false} DigitAt(n: nat, i: nat)
    requires i < |Digits(n)|
    ensures Digits(n)[|Digits(n)| - 1 - i] == "0123456789"[Dropped(n, i) % 10]
  {
    DigitIs(n % 10);
    if n < 10 {
      assert Digits(n) == [Digit(n)];
    } else if i > 0 {
      DigitAt(n / 10, i - 1);
    }
  }

  lemma DigitIs(d: nat)
    requires d < 10
    ensures Digit(d) == "0123456789"[d]
  {
  }

  /** As many digits as the number has, without leading zeros. */
  lemma {:induction false} DigitCount(n: nat)
    ensures n < Ten(|Digits(n)|) && (|Digits(n)| > 1 ==> Ten(|Digits(n)| - 1) <= n)
  {
    if n >= 10 { DigitCount(n / 10); }
  }

  // ---------- reading numbers ----------

  /** Digits, with single underscores between them. */
  ghost predicate Written(s: string) {
    && s != "" && s[0] in "0123456789" && s[|s| - 1] in "0123456789"
    && (forall i | 0 <= i < |s| :: s[i] in "0123456789_")
    && (forall i, j | 0 <= i < j < |s| && j == i + 1 :: s[i] != '_' || s[j] != '_')
  }

  lemma DigitIff(c: char)
    ensures IsDigit(c) <==> c in "0123456789"
  {
    if IsDigit(c) { assert "0123456789"[c as int - 48] == c; }
  }

  /** Main theorem: exactly such texts are read as digits. */
  lemma {:induction false} ReadDigitsIff(s: string)
    ensures ReadDigits(s).Some? <==> Written(s)
    decreases |s|
  {
    forall c: char ensures IsDigit(c) <==> c in "0123456789" { DigitIff(c); }
    if |s| > 1 && IsDigit(s[|s| - 1]) {
      var n := |s| - 1;
      if s[n - 1] == '_' {
        ReadDigitsIff(s[..n - 1]);
        WrittenBehind(s, n - 1);
      } else {
        ReadDigitsIff(s[..n]);
        WrittenBehind(s, n);
      }
    }
  }

  lemma WrittenBehind(s: string, n: nat)
    requires 0 < |s| && s[|s| - 1] in "0123456789"
    requires (n == |s| - 1 && n > 0 && s[n - 1] != '_') || (n == |s| - 2 && s[n] == '_')
    ensures Written(s) <==> Written(s[..n])
  {
    var a := s[..n];
    assert '_' !in "0123456789";
    if Written(s) {
      assert n > 0 && s[n - 1] != '_' && s[n - 1] in "0123456789_";
      OnlyUnderscore(s[n - 1]);
      assert forall i | 0 <= i < n :: a[i] == s[i];
    }
    if Written(a) {
      forall i | 0 <= i < |s| ensures s[i] in "0123456789_" {
        if i < n { assert s[i] == a[i]; } else { Wider(s[|s| - 1]); }
      }
      forall i, j | 0 <= i < j < |s| && j == i + 1 ensures s[i] != '_' || s[j] != '_' {
        if j < n { assert s[i] == a[i] && s[j] == a[j]; } else if j == n { assert s[i] == a[n - 1]; }
      }
      assert s[0] == a[0];
    }
  }

  lemma OnlyUnderscore(c: char)
    requires c in "0123456789_" && c != '_'
    ensures c in "0123456789"
  {
    var i :| 0 <= i < 11 && "0123456789_"[i] == c;
    assert "0123456789"[i] == c;
  }

  lemma Wider(c: char)
    requires c in "0123456789"
    ensures c in "0123456789_"
  {
    var i :| 0 <= i < 10 && "0123456789"[i] == c;
    assert "0123456789_"[i] == c;
  }

  /** One digit more, with or without an underscore before it, is the next place. */
  lemma {:induction false} ReadSnoc(s: string, d: nat)
    requires d < 10 && ReadDigits(s).Some?
    ensures ReadDigits(["0123456789"[d]]) == Some(d)
    ensures ReadDigits(s + ["0123456789"[d]]) == Some(ReadDigits(s).value * 10 + d)
    ensures ReadDigits(s + "_" + ["0123456789"[d]]) == Some(ReadDigits(s).value * 10 + d)
  {
    DigitIs(d);
    ReadPlain(s, Digit(d));
    ReadUnder(s, Digit(d));
  }

  lemma {:induction false} ReadPlain(s: string, c: char)
    requires ReadDigits(s).Some? && IsDigit(c)
    ensures ReadDigits([c]) == Some(c as nat - 48)
    ensures ReadDigits(s + [c]) == Some(ReadDigits(s).value * 10 + (c as nat - 48))
  {
    var t := s + [c];
    assert t[..|t| - 1] == s && t[|t| - 2] == s[|s| - 1] && t[|t| - 1] == c;
  }

  lemma {:induction false} ReadUnder(s: string, c: char)
    requires ReadDigits(s).Some? && IsDigit(c)
    ensures ReadDigits(s + "_" + [c]) == Some(ReadDigits(s).value * 10 + (c as nat - 48))
  {
    var t := s + "_" + [c];
    assert t[..|t| - 2] == s && t[|t| - 2] == '_' && t[|t| - 1] == c;
  }

  /** White space around a number is ignored, then one sign. */
  lemma {:induction false} ReadIntIs(left: string, s: string, right: string)
    requires forall c | c in left + right :: c in " \t\n\U{0b}\U{0c}\r\U{1c}\U{1d}\U{1e}\U{1f}"
    requires Written(s)
    ensures ReadDigits(s).Some?
    ensures ReadInt(left + s + right) == Some(ReadDigits(s).value as int)
    ensures ReadInt(left + ("+" + s) + right) == Some(ReadDigits(s).value as int)
    ensures ReadInt(left + ("-" + s) + right) == Some(-(ReadDigits(s).value as int))
  {
    ReadDigitsIff(s);
    NoSpace(s[0]);
    NoSpace(s[|s| - 1]);
    StripIs(left, s, right);
    StripIs(left, "+" + s, right);
    StripIs(left, "-" + s, right);
    ReadSign(s);
  }

  lemma {:induction false} ReadSign(s: string)
    requires s != "" && s[0] != '-' && s[0] != '+' && ReadDigits(s).Some?
    ensures ReadSigned(s) == Some(ReadDigits(s).value as int)
    ensures ReadSigned("+" + s) == Some(ReadDigits(s).value as int)
    ensures ReadSigned("-" + s) == Some(-(ReadDigits(s).value as int))
  {
    assert ("+" + s)[1..] == s && ("-" + s)[1..] == s;
  }

  lemma NoSpace(c: char)
    requires c in "0123456789"
    ensures c !in " \t\n\U{0b}\U{0c}\r\U{1c}\U{1d}\U{1e}\U{1f}" && c != '-' && c != '+'
  {
  }

  // ---------- capitals ----------

  lemma UpperIs(i: nat, c: char)
    ensures i < 26 ==> Upper("abcdefghijklmnopqrstuvwxyz"[i]) == "ABCDEFGHIJKLMNOPQRSTUVWXYZ"[i]
    ensures c !in "abcdefghijklmnopqrstuvwxyz" ==> Upper(c) == c
  {
    if 'a' <= c <= 'z' { assert "abcdefghijklmnopqrstuvwxyz"[c as int - 97] == c; }
  }

  /** The first letter is raised and every other lowered. */
  lemma CapitalizeIs(s: string)
    ensures |Capitalize(s)| == |s|
    ensures forall i | 0 <= i < |s| :: Capitalize(s)[i] == if i == 0 then Upper(s[i]) else Fold(s[i])
  {
  }

  // ---------- the import ----------

  /** The settings of the configuration an import leaves for a kind of point. */
  function ConfigFor(point: Point, dataPoints: bool): Option<Entries> {
    if dataPoints then point.dataConfig else point.eventConfig
  }

  /** What a setting is read as: none when Python reads its entry as false. */
  ghost predicate ReadsAs(v: Scalar, setting: Option<int>) {
    match v
    case Missing => setting == None
    case Text(s) => if s == "" then setting == None else ReadInt(s).Some? && setting == ReadInt(s)
    case Number(n) => setting == if n == 0 then None else Some(n)
  }

  lemma ReadsIff(v: Scalar, setting: Option<int>)
    ensures ReadSetting(v) == Some(setting) <==> ReadsAs(v, setting)
    ensures ReadSetting(v) == None <==> v.Text? && v.text != "" && ReadInt(v.text) == None
  {
  }

  /** Main theorem: what an import does to a point once its headings are renamed (`RenamedIs`). A text mode is
      capitalised and any other that is given is an error; the two settings move to the configuration of a data
      point, if there is a data source, else of an event, and leave it alone if there are none. */
  lemma ImportIs(point: Point, queue: Option<int>, sampling: Option<int>)
    ensures var d := Renamed(point.entries - {Blank}, HEADINGS);
            var mode := Get(d, Prop(Mode), Missing);
            && (Imported(point) == None <==>
                  || (mode.Number? && mode.n != 0)
                  || ReadSetting(Get(d, Prop(Queue), Missing)) == None
                  || ReadSetting(Get(d, Prop(Sampling), Missing)) == None)
            && (Imported(point).Some? && ReadsAs(Get(d, Prop(Queue), Missing), queue)
                && ReadsAs(Get(d, Prop(Sampling), Missing), sampling) ==>
                  var r := Imported(point).value;
                  && r.entries.Keys == d.Keys - {Prop(Queue), Prop(Sampling)}
                  && (forall k | k in r.entries ::
                        r.entries[k] == if k == Prop(Mode) && mode.Text? then Text(Capitalize(mode.text)) else d[k])
                  && ConfigFor(r, Prop(DataSource) !in d) == ConfigFor(point, Prop(DataSource) !in d)
                  && (if queue == None && sampling == None then
                        ConfigFor(r, Prop(DataSource) in d) == ConfigFor(point, Prop(DataSource) in d)
                      else ConfigFor(r, Prop(DataSource) in d).Some?
                           && HasSettings(ConfigFor(r, Prop(DataSource) in d).value, queue, sampling)))
  {
    var d := Renamed(point.entries - {Blank}, HEADINGS);
    ReadsIff(Get(d, Prop(Queue), Missing), queue);
    ReadsIff(Get(d, Prop(Sampling), Missing), sampling);
    SettingsOf(queue, sampling);
    KeptOut(d);
  }

  /** The configuration holds exactly these settings. */
  predicate HasSettings(config: Entries, queue: Option<int>, sampling: Option<int>) {
    && (forall k | k in config :: k in {Prop(Queue), Prop(Sampling)})
    && (if queue.Some? then Prop(Queue) in config && config[Prop(Queue)] == Number(queue.value)
        else Prop(Queue) !in config)
    && (if sampling.Some? then Prop(Sampling) in config && config[Prop(Sampling)] == Number(sampling.value)
        else Prop(Sampling) !in config)
  }

  lemma SettingsOf(queue: Option<int>, sampling: Option<int>)
    ensures HasSettings(ConfigOf(queue, sampling), queue, sampling)
    ensures ConfigOf(queue, sampling) == map[] <==> queue == None && sampling == None
  {
    ConfigGets(queue, sampling);
  }

  lemma KeptOut(d: Entries)
    ensures Capitalized(d).Some? ==>
              var e := Capitalized(d).value - SETTINGS;
              var mode := Get(d, Prop(Mode), Missing);
              && e.Keys == d.Keys - {Prop(Queue), Prop(Sampling)}
              && (forall k | k in e ::
                    e[k] == if k == Prop(Mode) && mode.Text? then Text(Capitalize(mode.text)) else d[k])
    ensures Capitalized(d) == None <==> Get(d, Prop(Mode), Missing).Number? && Get(d, Prop(Mode), Missing).n != 0
    ensures Capitalized(d).Some? ==>
              forall p | p != Mode :: Get(Capitalized(d).value, Prop(p), Missing) == Get(d, Prop(p), Missing)
  {
  }

  // ---------- there and back ----------

  /** Main theorem: reading an exported row back gives every column's value in force as text, the mode
      capitalised, and the two settings, where they are columns, as the numbers in force and nothing else. */
  lemma ReadBack(point: Point, dataPoints: bool, portal: bool, defaults: Entries)
    requires Row(Exported(point, dataPoints, portal, defaults), Columns(dataPoints, portal)).Some?
    requires forall c | c in Columns(dataPoints, portal) && c.property in {Queue, Sampling} ::
               !ValueFor(point, dataPoints, portal, defaults, c.property).Text?
    ensures var row := Row(Exported(point, dataPoints, portal, defaults), Columns(dataPoints, portal)).value;
            var r := Imported(Point(row, None, None));
            && r.Some?
            && r.value.entries.Keys
               == (set c | c in Columns(dataPoints, portal) && c.property !in {Queue, Sampling} :: Prop(c.property))
            && (forall c | c in Columns(dataPoints, portal) && c.property !in {Queue, Sampling} ::
                  var cell := CellText(ValueFor(point, dataPoints, portal, defaults, c.property));
                  r.value.entries[Prop(c.property)] == Text(if c.property == Mode then Capitalize(cell) else cell))
            && ConfigFor(r.value, !dataPoints) == None
            && var queue := SettingIn(point, dataPoints, portal, defaults, Queue);
               var sampling := SettingIn(point, dataPoints, portal, defaults, Sampling);
               if queue == None && sampling == None then ConfigFor(r.value, dataPoints) == None
               else ConfigFor(r.value, dataPoints).Some?
                    && HasSettings(ConfigFor(r.value, dataPoints).value, queue, sampling)
  {
    ReadableValues(point, dataPoints, portal, defaults);
    RoundTrip(point, dataPoints, portal, defaults);
    SettledEntriesAre(point, dataPoints, portal, defaults);
    SettledConfigIs(point, dataPoints, portal, defaults);
  }

  lemma ReadableValues(point: Point, dataPoints: bool, portal: bool, defaults: Entries)
    requires forall c | c in Columns(dataPoints, portal) && c.property in {Queue, Sampling} ::
               !ValueFor(point, dataPoints, portal, defaults, c.property).Text?
    ensures forall p | p in Properties(Columns(dataPoints, portal)) && p in {Queue, Sampling} ::
              Numeric(Effective(point, dataPoints, portal, defaults, p))
  {
    forall p | p in Properties(Columns(dataPoints, portal)) && p in {Queue, Sampling}
      ensures Numeric(Effective(point, dataPoints, portal, defaults, p))
    {
      EffectiveIs(point, dataPoints, portal, defaults, p);
      var c :| c in Columns(dataPoints, portal) && c.property == p;
    }
  }

  lemma SettledEntriesAre(point: Point, dataPoints: bool, portal: bool, defaults: Entries)
    ensures var e := Settled(point, dataPoints, portal, defaults).entries;
            && e.Keys
               == (set c | c in Columns(dataPoints, portal) && c.property !in {Queue, Sampling} :: Prop(c.property))
            && (forall c | c in Columns(dataPoints, portal) && c.property !in {Queue, Sampling} ::
                  var cell := CellText(ValueFor(point, dataPoints, portal, defaults, c.property));
                  e[Prop(c.property)] == Text(if c.property == Mode then Capitalize(cell) else cell))
  {
    SettledIs(point, dataPoints, portal, defaults);
    SettledColumns(Settled(point, dataPoints, portal, defaults).entries, Columns(dataPoints, portal));
    forall c | c in Columns(dataPoints, portal)
      ensures c.property in Properties(Columns(dataPoints, portal))
      ensures Effective(point, dataPoints, portal, defaults, c.property)
              == ValueFor(point, dataPoints, portal, defaults, c.property)
    {
      EffectiveIs(point, dataPoints, portal, defaults, c.property);
    }
  }

  lemma SettledConfigIs(point: Point, dataPoints: bool, portal: bool, defaults: Entries)
    ensures var s := Settled(point, dataPoints, portal, defaults);
            var queue := SettingIn(point, dataPoints, portal, defaults, Queue);
            var sampling := SettingIn(point, dataPoints, portal, defaults, Sampling);
            && ConfigFor(s, !dataPoints) == None
            && if queue == None && sampling == None then ConfigFor(s, dataPoints) == None
               else ConfigFor(s, dataPoints).Some? && HasSettings(ConfigFor(s, dataPoints).value, queue, sampling)
  {
    SettledIs(point, dataPoints, portal, defaults);
    SettingKept(point, dataPoints, portal, defaults, Queue);
    SettingKept(point, dataPoints, portal, defaults, Sampling);
    SettingsOf(Kept(point, dataPoints, portal, defaults, Queue), Kept(point, dataPoints, portal, defaults, Sampling));
  }

  /** The setting shown: the number in force, where the form has the column. */
  function SettingIn(point: Point, dataPoints: bool, portal: bool, defaults: Entries, p: Property): Option<int> {
    if portal && !dataPoints && p == Sampling then None
    else match ValueFor(point, dataPoints, portal, defaults, p) case Number(n) => Some(n) case _ => None
  }

  lemma SettingKept(point: Point, dataPoints: bool, portal: bool, defaults: Entries, p: Property)
    requires p in {Queue, Sampling}
    ensures Kept(point, dataPoints, portal, defaults, p) == SettingIn(point, dataPoints, portal, defaults, p)
  {
    ColumnFacts(dataPoints, portal);
    if p in Properties(Columns(dataPoints, portal)) { EffectiveIs(point, dataPoints, portal, defaults, p); }
  }

  lemma SettledColumns(e: Entries, columns: seq<Column>)
    requires forall k | k in e :: k.Prop? && k.property in Properties(columns) && k !in SETTINGS
    requires forall p | p in Properties(columns) && p != Queue && p != Sampling :: Prop(p) in e
    ensures e.Keys == set c | c in columns && c.property !in {Queue, Sampling} :: Prop(c.property)
  {
    var wanted := set c | c in columns && c.property !in {Queue, Sampling} :: Prop(c.property);
    forall k | k in e ensures k in wanted {
      var c :| c in columns && c.property == k.property;
      assert Prop(c.property) in wanted;
    }
  }
}

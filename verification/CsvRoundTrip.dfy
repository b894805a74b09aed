/** CSV export and import are inverse: every exportable point is read back with the values in force. */
module CsvRoundTrip {
  import opened Json
  import opened CsvPoints

  // ---------- what the two re-keying loops do ----------

  function Properties(columns: seq<Column>): set<Property> {
    set c | c in columns :: c.property
  }

  function PropKeys(columns: seq<Column>): set<Key> {
    set c | c in columns :: Prop(c.property)
  }

  lemma KeysSnoc(columns: seq<Column>, c: Column)
    ensures HeadKeys(columns + [c]) == HeadKeys(columns) + {Head(c.heading)}
    ensures PropKeys(columns + [c]) == PropKeys(columns) + {Prop(c.property)}
  {
  }

  lemma HeadedOne(d: Entries, r: Entries, props: set<Key>, heads: set<Key>, c: Column, otherwise: Scalar)
    requires r.Keys == d.Keys - props + heads && (forall k | k in r && k !in heads :: r[k] == d[k])
    requires (forall k | k in heads :: k.Head?) && Prop(c.property) !in props
    ensures var p, h := Prop(c.property), Head(c.heading);
            var next := (r - {p})[h := Get(r, p, otherwise)];
            && next.Keys == d.Keys - (props + {p}) + (heads + {h})
            && (forall k | k in next && k !in heads + {h} :: next[k] == d[k])
            && next[h] == Get(d, p, otherwise)
            && (forall k | k in heads && k != h :: next[k] == r[k])
  {
  }

  ghost predicate HeadedAs(d: Entries, r: Entries, columns: seq<Column>, defaults: Entries) {
    && r.Keys == d.Keys - PropKeys(columns) + HeadKeys(columns)
    && (forall k | k in r && k !in HeadKeys(columns) :: r[k] == d[k])
    && (forall c | c in columns ::
          Head(c.heading) in r
          && r[Head(c.heading)] == Get(d, Prop(c.property), Get(defaults, Prop(c.property), Missing)))
  }

  lemma HeadedSnoc(d: Entries, r: Entries, earlier: seq<Column>, c: Column, defaults: Entries)
    requires HeadedAs(d, r, earlier, defaults)
    requires Prop(c.property) !in PropKeys(earlier) && Head(c.heading) !in HeadKeys(earlier)
    ensures var p, h := Prop(c.property), Head(c.heading);
            HeadedAs(d, (r - {p})[h := Get(r, p, Get(defaults, p, Missing))], earlier + [c], defaults)
  {
    KeysSnoc(earlier, c);
    HeadedOne(d, r, PropKeys(earlier), HeadKeys(earlier), c, Get(defaults, Prop(c.property), Missing));
    assert forall e | e in earlier :: Head(e.heading) in HeadKeys(earlier);
  }

  lemma {:induction false} HeadedAll(d: Entries, columns: seq<Column>, defaults: Entries)
    requires DistinctColumns(columns)
    ensures HeadedAs(d, Headed(d, columns, defaults), columns, defaults)
  {
    if columns != [] {
      var n := |columns| - 1;
      HeadedAll(d, columns[..n], defaults);
      assert columns == columns[..n] + [columns[n]];
      HeadedSnoc(d, Headed(d, columns[..n], defaults), columns[..n], columns[n], defaults);
    }
  }

  lemma {:induction false} HeadedIs(d: Entries, columns: seq<Column>, defaults: Entries)
    requires DistinctColumns(columns)
    ensures var r := Headed(d, columns, defaults);
            && r.Keys == d.Keys - PropKeys(columns) + HeadKeys(columns)
            && (forall k | k in r && k !in HeadKeys(columns) :: r[k] == d[k])
            && (forall i | 0 <= i < |columns| ::
                  r[Head(columns[i].heading)]
                      == Get(d, Prop(columns[i].property), Get(defaults, Prop(columns[i].property), Missing)))
  {
    HeadedAll(d, columns, defaults);
  }

  /** No two headings present mean the same property, nor one that is there already. */
  ghost predicate Unmixed(d: Entries, headings: seq<Heading>) {
    && (forall g, h | g in headings && h in headings && Head(g) in d && Head(h) in d && Meaning(g) == Meaning(h) ::
        g == h)
    && (forall h | h in headings && Head(h) in d :: Prop(Meaning(h)) !in d)
  }

  predicate NoRepeats(headings: seq<Heading>) {
    forall i, j | 0 <= i < j < |headings| :: headings[i] != headings[j]
  }

  lemma {:induction false} RenamedIs(d: Entries, headings: seq<Heading>)
    requires NoRepeats(headings) && Unmixed(d, headings)
    ensures var r := Renamed(d, headings);
            && (forall k | k in r :: (k in d && !(k.Head? && k.heading in headings) && r[k] == d[k])
                                     || exists h | h in headings :: Head(h) in d && k == Prop(Meaning(h)))
            && (forall k | k in d && !(k.Head? && k.heading in headings) :: k in r && r[k] == d[k])
            && (forall h | h in headings && Head(h) in d :: Prop(Meaning(h)) in r && r[Prop(Meaning(h))] == d[Head(h)])
  {
    if headings != [] {
      var n := |headings| - 1;
      var earlier, h := headings[..n], headings[n];
      assert headings == earlier + [h] && h !in earlier;
      RenamedIs(d, earlier);
    }
  }

  // ---------- the file written ----------

  /** The value in force: the point's own, else the default, else `None`. */
  function Effective(point: Point, dataPoints: bool, portal: bool, defaults: Entries, p: Property): Scalar {
    Get(Unpacked(point, dataPoints, portal), Prop(p), Get(InForce(portal, defaults), Prop(p), Missing))
  }

  /** The cells of a row, by the property of their column. */
  function CellsOf(d: Entries, columns: seq<Column>, defaults: Entries): map<Property, string> {
    map p | p in Properties(columns) :: CellText(Get(d, Prop(p), Get(defaults, Prop(p), Missing)))
  }

  function Cells(point: Point, dataPoints: bool, portal: bool, defaults: Entries): (cells: map<Property, string>)
    ensures Mode in cells
  {
    ColumnFacts(dataPoints, portal);
    CellsOf(Unpacked(point, dataPoints, portal), Columns(dataPoints, portal), InForce(portal, defaults))
  }

  /** A row holding given cells. */
  ghost predicate Holds(row: Entries, columns: seq<Column>, cells: map<Property, string>) {
    && row.Keys == HeadKeys(columns) && cells.Keys == Properties(columns)
    && forall i | 0 <= i < |columns| :: row[Head(columns[i].heading)] == Text(cells[columns[i].property])
  }

  lemma ColumnKeys(columns: seq<Column>)
    ensures forall i | 0 <= i < |columns| ::
              Head(columns[i].heading) in HeadKeys(columns) && columns[i].property in Properties(columns)
  {
    forall i | 0 <= i < |columns|
      ensures Head(columns[i].heading) in HeadKeys(columns) && columns[i].property in Properties(columns)
    {
      assert columns[i] in columns;
    }
  }

  lemma KeysLeft(all: set<Key>, from: set<Key>, to: set<Key>)
    ensures all - from + to <= to <==> all <= from + to
  {
    if all - from + to <= to {
      forall k | k in all ensures k in from + to {
        if k !in from { assert k in all - from + to; }
      }
    }
  }

  lemma CellsWritten(d: Entries, columns: seq<Column>, defaults: Entries, r: Entries)
    requires r.Keys <= HeadKeys(columns)
    requires forall i | 0 <= i < |columns| ::
               && Head(columns[i].heading) in r
               && r[Head(columns[i].heading)]
                   == Get(d, Prop(columns[i].property), Get(defaults, Prop(columns[i].property), Missing))
    ensures Holds(RowText(r, columns), columns, CellsOf(d, columns, defaults))
  {
    ColumnKeys(columns);
    var cells, row := CellsOf(d, columns, defaults), RowText(r, columns);
    forall i | 0 <= i < |columns|
      ensures row[Head(columns[i].heading)] == Text(cells[columns[i].property])
    {
      var p, h := columns[i].property, Head(columns[i].heading);
      assert row[h] == Text(CellText(r[h]));
    }
  }

  lemma {:induction false} RowHolds(d: Entries, columns: seq<Column>, defaults: Entries, point: Point)
    requires DistinctColumns(columns) && point.entries == Headed(d, columns, defaults)
    ensures var row := Row(point, columns);
            && (row.Some? <==>
                  d.Keys <= PropKeys(columns) + HeadKeys(columns) && point.dataConfig.None? && point.eventConfig.None?)
            && (row.Some? ==> Holds(row.value, columns, CellsOf(d, columns, defaults)))
  {
    HeadedIs(d, columns, defaults);
    KeysLeft(d.Keys, PropKeys(columns), HeadKeys(columns));
    ColumnKeys(columns);
    if Row(point, columns).Some? { CellsWritten(d, columns, defaults, point.entries); }
  }

  /** Main theorem of the export: it fails exactly when something other than the columns is left in
      the point, and otherwise writes the values in force under their headings. */
  lemma ExportWrites(point: Point, dataPoints: bool, portal: bool, defaults: Entries)
    ensures var columns := Columns(dataPoints, portal);
            var row := Row(Exported(point, dataPoints, portal, defaults), columns);
            && (row.Some? <==>
                  && Unpacked(point, dataPoints, portal).Keys <= PropKeys(columns) + HeadKeys(columns)
                  && (if dataPoints then point.eventConfig else point.dataConfig).None?)
            && (row.Some? ==> Holds(row.value, columns, Cells(point, dataPoints, portal, defaults)))
  {
    TablesInverse(dataPoints, portal);
    RowHolds(Unpacked(point, dataPoints, portal), Columns(dataPoints, portal), InForce(portal, defaults),
             Exported(point, dataPoints, portal, defaults));
  }

  // ---------- the file read back ----------

  function Keyed(cells: map<Property, string>): Entries {
    map p | p in cells :: Prop(p) := Text(cells[p])
  }

  lemma RowUnmixed(row: Entries, columns: seq<Column>)
    requires Readable(columns) && DistinctColumns(columns) && row.Keys == HeadKeys(columns)
    ensures Unmixed(row, HEADINGS)
  {
    forall g, h | g in HEADINGS && h in HEADINGS && Head(g) in row && Head(h) in row && Meaning(g) == Meaning(h)
      ensures g == h
    {
      var i := ColumnOf(columns, g);
      var j := ColumnOf(columns, h);
    }
  }

  /** Whatever form the file has, its headings are read as properties. */
  lemma RenamedRow(row: Entries, columns: seq<Column>, cells: map<Property, string>)
    requires Readable(columns) && DistinctColumns(columns) && Holds(row, columns, cells)
    ensures Renamed(row - {Blank}, HEADINGS) == Keyed(cells)
  {
    assert row - {Blank} == row;
    KnownHeadings();
    RowUnmixed(row, columns);
    RenamedIs(row, HEADINGS);
    SameEntries(row, HEADINGS, columns, cells, Renamed(row, HEADINGS));
  }

  lemma OnlyKeyed(
    row: Entries, headings: seq<Heading>, columns: seq<Column>, cells: map<Property, string>, k: Key)
    requires Readable(columns) && Holds(row, columns, cells)
    requires exists h | h in headings :: Head(h) in row && k == Prop(Meaning(h))
    ensures k in Keyed(cells)
  {
    ColumnKeys(columns);
    var h :| h in headings && Head(h) in row && k == Prop(Meaning(h));
    var i := ColumnOf(columns, h);
  }

  lemma KeyedThere(
    row: Entries, columns: seq<Column>, cells: map<Property, string>, p: Property) returns (h: Heading)
    requires Readable(columns) && Holds(row, columns, cells) && p in cells
    ensures Meaning(h) == p && Head(h) in row && row[Head(h)] == Text(cells[p])
  {
    ColumnKeys(columns);
    var i := ColumnFor(columns, p);
    h := columns[i].heading;
    assert Head(h) in HeadKeys(columns);
  }

  lemma KeyedKept(
    row: Entries, headings: seq<Heading>, columns: seq<Column>, cells: map<Property, string>, r: Entries, p: Property)
    requires Readable(columns) && Holds(row, columns, cells) && forall h: Heading :: h in headings
    requires forall h | h in headings && Head(h) in row :: Prop(Meaning(h)) in r && r[Prop(Meaning(h))] == row[Head(h)]
    requires p in cells
    ensures Prop(p) in r && r[Prop(p)] == Text(cells[p])
  {
    var h := KeyedThere(row, columns, cells, p);
    assert h in headings;
  }

  lemma OnlyHeads(row: Entries, columns: seq<Column>, cells: map<Property, string>, k: Key)
    requires Holds(row, columns, cells) && k in row
    ensures k.Head?
  {
  }

  lemma SameEntries(
    row: Entries, headings: seq<Heading>, columns: seq<Column>, cells: map<Property, string>, r: Entries)
    requires Readable(columns) && Holds(row, columns, cells) && forall h: Heading :: h in headings
    requires forall k | k in r :: (k in row && !(k.Head? && k.heading in headings) && r[k] == row[k])
                                  || exists h | h in headings :: Head(h) in row && k == Prop(Meaning(h))
    requires forall h | h in headings && Head(h) in row :: Prop(Meaning(h)) in r && r[Prop(Meaning(h))] == row[Head(h)]
    ensures r == Keyed(cells)
  {
    forall k | k in r ensures k in Keyed(cells) {
      if k in row { OnlyHeads(row, columns, cells, k); }
      OnlyKeyed(row, headings, columns, cells, k);
    }
    forall p | p in cells ensures Prop(p) in r && r[Prop(p)] == Text(cells[p]) {
      KeyedKept(row, headings, columns, cells, r, p);
    }
  }

  lemma ColumnFor(columns: seq<Column>, p: Property) returns (i: nat)
    requires p in Properties(columns)
    ensures i < |columns| && columns[i].property == p
  {
    var c :| c in columns && c.property == p;
    i :| 0 <= i < |columns| && columns[i] == c;
  }

  lemma ColumnOf(columns: seq<Column>, h: Heading) returns (i: nat)
    requires Head(h) in HeadKeys(columns)
    ensures i < |columns| && columns[i].heading == h
  {
    var c :| c in columns && Head(c.heading) == Head(h);
    i :| 0 <= i < |columns| && columns[i] == c;
  }

  // ---------- the round trip ----------

  predicate Numeric(v: Scalar) {
    !v.Text?
  }

  function AsSetting(v: Scalar): Option<int> {
    match v case Number(n) => Some(n) case _ => None
  }

  lemma SettingRead(v: Scalar)
    requires Numeric(v)
    ensures ReadSetting(Text(CellText(v))) == Some(AsSetting(v))
  {
    if v.Number? { DecimalRoundTrip(v.n); }
  }

  /** A setting in force that is also exported. */
  function Kept(point: Point, dataPoints: bool, portal: bool, defaults: Entries, p: Property): Option<int> {
    if p in Properties(Columns(dataPoints, portal)) then
      AsSetting(Effective(point, dataPoints, portal, defaults, p))
    else None
  }

  /** A point with nothing in it yet. */
  const NOTHING := Point(map[], None, None)

  function SettledEntries(cells: map<Property, string>): Entries
    requires Mode in cells
  {
    Keyed(cells[Mode := Capitalize(cells[Mode])]) - SETTINGS
  }

  /** The point read from given cells: the mode capitalised, the settings in its configuration. */
  function PointOf(cells: map<Property, string>, queue: Option<int>, sampling: Option<int>): Point
    requires Mode in cells
  {
    Configured(SettledEntries(cells), NOTHING, ConfigOf(queue, sampling))
  }

  lemma ColumnFacts(dataPoints: bool, portal: bool)
    ensures var ps := Properties(Columns(dataPoints, portal));
            && Mode in ps && Queue in ps && Name in ps && (DataSource in ps <==> dataPoints)
            && (Sampling in ps <==> !portal || dataPoints) && (Capability in ps <==> !portal)
  {
    if dataPoints && portal { FiveProperties(Columns(true, true)); }
    else if portal { FourProperties(Columns(false, true)); }
    else { SixProperties(dataPoints, Columns(dataPoints, false)); }
  }

  lemma FourProperties(cs: seq<Column>)
    requires cs == Columns(false, true)
    ensures Properties(cs) == {EventNotifier, Name, Queue, Mode}
  {
    ColumnKeys(cs);
    assert cs[0].property == EventNotifier && cs[1].property == Name && cs[2].property == Queue
        && cs[3].property == Mode;
  }

  lemma FiveProperties(cs: seq<Column>)
    requires cs == Columns(true, true)
    ensures Properties(cs) == {DataSource, Name, Queue, Mode, Sampling}
  {
    ColumnKeys(cs);
    assert cs[0].property == DataSource && cs[1].property == Name && cs[2].property == Queue && cs[3].property == Mode;
    assert cs[4].property == Sampling;
  }

  lemma PropertyAt(cs: seq<Column>, i: nat)
    requires i < |cs|
    ensures cs[i].property in Properties(cs)
  {
    ColumnKeys(cs);
  }

  lemma SixProperties(dataPoints: bool, cs: seq<Column>)
    requires |cs| == 6 && cs[1].property == Name && cs[2].property == Queue && cs[3].property == Mode
    requires cs[4].property == Sampling && cs[5].property == Capability
    requires cs[0].property == if dataPoints then DataSource else EventNotifier
    ensures Name in Properties(cs) && Queue in Properties(cs) && Mode in Properties(cs)
    ensures Sampling in Properties(cs) && Capability in Properties(cs)
    ensures DataSource in Properties(cs) <==> dataPoints
  {
    PropertyAt(cs, 1);
    PropertyAt(cs, 2);
    PropertyAt(cs, 3);
    PropertyAt(cs, 4);
    PropertyAt(cs, 5);
    OnlyFirst(cs, DataSource);
  }

  lemma OnlyFirst(cs: seq<Column>, p: Property)
    requires cs != [] && forall i | 0 < i < |cs| :: cs[i].property != p
    ensures p in Properties(cs) <==> cs[0].property == p
  {
    if p in Properties(cs) { var i := ColumnFor(cs, p); }
    assert cs[0] in cs;
  }

  /** What a round trip leaves: the exported values as text, the mode capitalised, and a
      configuration with the settings that were in force. */
  function Settled(point: Point, dataPoints: bool, portal: bool, defaults: Entries): Point {
    PointOf(Cells(point, dataPoints, portal, defaults),
            Kept(point, dataPoints, portal, defaults, Queue), Kept(point, dataPoints, portal, defaults, Sampling))
  }

  /** Points whose file the import can read: it can be written, and the settings in it are numbers. */
  predicate Exportable(point: Point, dataPoints: bool, portal: bool, defaults: Entries) {
    && Row(Exported(point, dataPoints, portal, defaults), Columns(dataPoints, portal)).Some?
    && forall p | p in Properties(Columns(dataPoints, portal)) && p in {Queue, Sampling} ::
         Numeric(Effective(point, dataPoints, portal, defaults, p))
  }

  lemma KeyedGet(cells: map<Property, string>, p: Property)
    ensures Get(Keyed(cells), Prop(p), Missing) == if p in cells then Text(cells[p]) else Missing
  {
  }

  lemma CapitalizedCells(cells: map<Property, string>)
    requires Mode in cells
    ensures Capitalized(Keyed(cells)) == Some(Keyed(cells[Mode := Capitalize(cells[Mode])]))
  {
    KeyedGet(cells, Mode);
    var mode := cells[Mode];
    if mode == "" { assert cells[Mode := ""] == cells; }
    KeyedUpdate(cells, Mode, Capitalize(mode));
  }

  lemma KeyedUpdate(cells: map<Property, string>, p: Property, text: string)
    ensures Keyed(cells[p := text]) == Keyed(cells)[Prop(p) := Text(text)]
  {
  }

  lemma ImportCells(row: Entries, cells: map<Property, string>, queue: Option<int>, sampling: Option<int>)
    requires Renamed(row - {Blank}, HEADINGS) == Keyed(cells) && Mode in cells
    requires ReadSetting(Get(Keyed(cells), Prop(Queue), Missing)) == Some(queue)
    requires ReadSetting(Get(Keyed(cells), Prop(Sampling), Missing)) == Some(sampling)
    ensures Imported(Point(row, None, None)) == Some(PointOf(cells, queue, sampling))
  {
    CapitalizedCells(cells);
    KeyedUpdate(cells, Mode, Capitalize(cells[Mode]));
  }

  /** Main theorem: every exportable point is read back from its row, in all four forms. */
  lemma RoundTrip(point: Point, dataPoints: bool, portal: bool, defaults: Entries)
    requires Exportable(point, dataPoints, portal, defaults)
    ensures var row := Row(Exported(point, dataPoints, portal, defaults), Columns(dataPoints, portal)).value;
            Imported(Point(row, None, None)) == Some(Settled(point, dataPoints, portal, defaults))
  {
    var columns := Columns(dataPoints, portal);
    var row := Row(Exported(point, dataPoints, portal, defaults), columns).value;
    var cells := Cells(point, dataPoints, portal, defaults);
    TablesInverse(dataPoints, portal);
    ExportWrites(point, dataPoints, portal, defaults);
    RenamedRow(row, columns, cells);
    ColumnFacts(dataPoints, portal);
    SettingCell(point, dataPoints, portal, defaults, Queue);
    SettingCell(point, dataPoints, portal, defaults, Sampling);
    ImportCells(row, cells, Kept(point, dataPoints, portal, defaults, Queue),
        Kept(point, dataPoints, portal, defaults, Sampling));
  }

  lemma SettingCell(point: Point, dataPoints: bool, portal: bool, defaults: Entries, p: Property)
    requires p in Properties(Columns(dataPoints, portal)) ==> Numeric(Effective(point, dataPoints, portal, defaults, p))
    ensures ReadSetting(Get(Keyed(Cells(point, dataPoints, portal, defaults)), Prop(p), Missing))
            == Some(Kept(point, dataPoints, portal, defaults, p))
  {
    KeyedGet(Cells(point, dataPoints, portal, defaults), p);
    if p in Properties(Columns(dataPoints, portal)) { SettingRead(Effective(point, dataPoints, portal, defaults, p)); }
  }

  /** What that is, entry by entry. */
  lemma SettledIs(point: Point, dataPoints: bool, portal: bool, defaults: Entries)
    ensures var s := Settled(point, dataPoints, portal, defaults);
            var q := Kept(point, dataPoints, portal, defaults, Queue);
            var n := Kept(point, dataPoints, portal, defaults, Sampling);
            && (forall p | p in Properties(Columns(dataPoints, portal)) && p != Queue && p != Sampling ::
                  && Prop(p) in s.entries
                  && var cell := CellText(Effective(point, dataPoints, portal, defaults, p));
                     s.entries[Prop(p)] == Text(if p == Mode then Capitalize(cell) else cell))
            && (forall k | k in s.entries ::
                  k.Prop? && k.property in Properties(Columns(dataPoints, portal)) && k !in SETTINGS)
            && (if dataPoints then s.eventConfig else s.dataConfig).None?
            && (if dataPoints then s.dataConfig else s.eventConfig)
               == if q.None? && n.None? then None else Some(ConfigOf(q, n))
  {
    var cells := Cells(point, dataPoints, portal, defaults);
    ColumnFacts(dataPoints, portal);
    ConfigGets(Kept(point, dataPoints, portal, defaults, Queue), Kept(point, dataPoints, portal, defaults, Sampling));
    forall p | p in cells && p != Queue && p != Sampling
      ensures Prop(p) in SettledEntries(cells)
      ensures SettledEntries(cells)[Prop(p)] == Text(if p == Mode then Capitalize(cells[p]) else cells[p])
    {
      SettledAt(cells, p);
    }
    assert Prop(DataSource) in SettledEntries(cells) <==> DataSource in cells;
  }

  // ---------- a second round trip ----------

  lemma CapitalizeStable(s: string)
    ensures Capitalize(Capitalize(s)) == Capitalize(s)
  {
  }

  lemma ConfiguredUnpacks(e: Entries, config: Entries, dataPoints: bool, portal: bool)
    requires Prop(DataSource) in e <==> dataPoints
    requires portal ==> Prop(Capability) !in e && Prop(Capability) !in config
    requires portal && !dataPoints ==> Prop(Sampling) !in e && Prop(Sampling) !in config
    ensures Unpacked(Configured(e, NOTHING, config), dataPoints, portal) == e + config
  {
  }

  /** What the second export reads from a settled point. */
  lemma SettledUnpacks(point: Point, dataPoints: bool, portal: bool, defaults: Entries)
    ensures Unpacked(Settled(point, dataPoints, portal, defaults), dataPoints, portal)
            == SettledEntries(Cells(point, dataPoints, portal, defaults))
               + ConfigOf(Kept(point, dataPoints, portal, defaults, Queue),
                   Kept(point, dataPoints, portal, defaults, Sampling))
  {
    ColumnFacts(dataPoints, portal);
    ConfiguredUnpacks(
      SettledEntries(Cells(point, dataPoints, portal, defaults)),
      ConfigOf(Kept(point, dataPoints, portal, defaults, Queue), Kept(point, dataPoints, portal, defaults, Sampling)),
      dataPoints, portal);
  }

  lemma ConfigDetermined(e: Entries, q: Option<int>, s: Option<int>, q': Option<int>, s': Option<int>)
    ensures Configured(e, NOTHING, ConfigOf(q, s)) == Configured(e, NOTHING, ConfigOf(q', s'))
            <==> q == q' && s == s'
  {
    ConfigGets(q, s);
    ConfigGets(q', s');
  }

  lemma ConfigGets(q: Option<int>, s: Option<int>)
    ensures ConfigOf(q, s).Keys == (if q.Some? then {Prop(Queue)} else {}) + (if s.Some? then {Prop(Sampling)} else {})
    ensures q.Some? ==> ConfigOf(q, s)[Prop(Queue)] == Number(q.value)
    ensures s.Some? ==> ConfigOf(q, s)[Prop(Sampling)] == Number(s.value)
    ensures ConfigOf(q, s) == map[] <==> q.None? && s.None?
  {
    if q.Some? { assert Prop(Queue) in ConfigOf(q, s); }
    if s.Some? { assert Prop(Sampling) in ConfigOf(q, s); }
  }

  /** The setting read on the second export: the one kept, else the default. */
  lemma SettingAgain(point: Point, dataPoints: bool, portal: bool, defaults: Entries, p: Property)
    requires p == Queue || p == Sampling
    ensures Effective(Settled(point, dataPoints, portal, defaults), dataPoints, portal, defaults, p)
            == match Kept(point, dataPoints, portal, defaults, p)
               case Some(n) => Number(n)
               case None => Get(InForce(portal, defaults), Prop(p), Missing)
  {
    SettledUnpacks(point, dataPoints, portal, defaults);
    ConfigGets(Kept(point, dataPoints, portal, defaults, Queue), Kept(point, dataPoints, portal, defaults, Sampling));
  }

  lemma CellsAgain(point: Point, dataPoints: bool, portal: bool, defaults: Entries)
    ensures SettledEntries(Cells(Settled(point, dataPoints, portal, defaults), dataPoints, portal, defaults))
            == SettledEntries(Cells(point, dataPoints, portal, defaults))
  {
    var q, n := Kept(point, dataPoints, portal, defaults, Queue), Kept(point, dataPoints, portal, defaults, Sampling);
    SettledUnpacks(point, dataPoints, portal, defaults);
    ConfigGets(q, n);
    SettledCells(Cells(point, dataPoints, portal, defaults), ConfigOf(q, n), Columns(dataPoints, portal),
        InForce(portal, defaults));
  }

  lemma SettledCells(cells: map<Property, string>, config: Entries, columns: seq<Column>, defaults: Entries)
    requires Mode in cells && cells.Keys == Properties(columns) && config.Keys <= SETTINGS
    ensures var again := CellsOf(SettledEntries(cells) + config, columns, defaults);
            Mode in again && SettledEntries(again) == SettledEntries(cells)
  {
    var e := SettledEntries(cells);
    var again := CellsOf(e + config, columns, defaults);
    forall p | p in cells && p != Queue && p != Sampling
      ensures again[p] == if p == Mode then Capitalize(cells[p]) else cells[p]
    {
      SettledAt(cells, p);
      assert Prop(p) !in config;
    }
    SameSettled(cells, again);
  }

  lemma SettledAt(cells: map<Property, string>, p: Property)
    requires Mode in cells && p in cells && p != Queue && p != Sampling
    ensures Prop(p) in SettledEntries(cells)
    ensures SettledEntries(cells)[Prop(p)] == Text(if p == Mode then Capitalize(cells[p]) else cells[p])
  {
    assert p in cells[Mode := Capitalize(cells[Mode])];
  }

  lemma SettledKeysAre(cells: map<Property, string>)
    requires Mode in cells
    ensures forall k | k in SettledEntries(cells) ::
              k.Prop? && k.property in cells && k.property != Queue && k.property != Sampling
  {
  }

  lemma SameSettled(cells: map<Property, string>, again: map<Property, string>)
    requires Mode in cells && cells.Keys == again.Keys
    requires forall p | p in cells && p != Queue && p != Sampling ::
               again[p] == if p == Mode then Capitalize(cells[p]) else cells[p]
    ensures SettledEntries(again) == SettledEntries(cells)
  {
    CapitalizeStable(cells[Mode]);
    SettledKeysAre(cells);
    SettledKeysAre(again);
    var a, b := SettledEntries(again), SettledEntries(cells);
    forall k | k in a || k in b ensures k in a && k in b && a[k] == b[k] {
      SettledAt(cells, k.property);
      SettledAt(again, k.property);
    }
  }

  /** A setting explicitly `None` although there is a default. */
  predicate Shadowed(point: Point, dataPoints: bool, portal: bool, defaults: Entries, p: Property) {
    && p in Properties(Columns(dataPoints, portal))
    && Effective(point, dataPoints, portal, defaults, p) == Missing
    && Get(InForce(portal, defaults), Prop(p), Missing) != Missing
  }

  lemma KeptAgain(point: Point, dataPoints: bool, portal: bool, defaults: Entries, p: Property)
    requires p == Queue || p == Sampling
    requires Numeric(Effective(point, dataPoints, portal, defaults, p)) && Numeric(Get(defaults, Prop(p), Missing))
    ensures Kept(Settled(point, dataPoints, portal, defaults), dataPoints, portal, defaults, p)
            == Kept(point, dataPoints, portal, defaults, p)
            <==> !Shadowed(point, dataPoints, portal, defaults, p)
  {
    SettingAgain(point, dataPoints, portal, defaults, p);
  }

  lemma PointDetermined(cells: map<Property, string>, again: map<Property, string>,
                        q: Option<int>, n: Option<int>, q': Option<int>, n': Option<int>)
    requires Mode in cells && Mode in again && SettledEntries(again) == SettledEntries(cells)
    ensures PointOf(again, q', n') == PointOf(cells, q, n) <==> q' == q && n' == n
  {
    ConfigDetermined(SettledEntries(cells), q, n, q', n');
  }

  lemma SettingNumeric(point: Point, dataPoints: bool, portal: bool, defaults: Entries, p: Property)
    requires Exportable(point, dataPoints, portal, defaults) && p in {Queue, Sampling}
    requires Numeric(Get(defaults, Prop(p), Missing))
    ensures Numeric(Effective(point, dataPoints, portal, defaults, p))
  {
    ColumnFacts(dataPoints, portal);
    if p !in Properties(Columns(dataPoints, portal)) {
      assert Prop(p) !in Unpacked(point, dataPoints, portal);
    }
  }

  /** Main theorem: with numeric defaults, a second export and import changes nothing exactly when no
      setting is an explicit `None` that hides a default. */
  lemma SettledStableIff(point: Point, dataPoints: bool, portal: bool, defaults: Entries)
    requires Exportable(point, dataPoints, portal, defaults)
    requires Numeric(Get(defaults, Prop(Queue), Missing)) && Numeric(Get(defaults, Prop(Sampling), Missing))
    ensures var s := Settled(point, dataPoints, portal, defaults);
            && Exportable(s, dataPoints, portal, defaults)
            && (Settled(s, dataPoints, portal, defaults) == s
                <==> !Shadowed(point, dataPoints, portal, defaults, Queue)
                     && !Shadowed(point, dataPoints, portal, defaults, Sampling))
  {
    var s := Settled(point, dataPoints, portal, defaults);
    SettledExportable(point, dataPoints, portal, defaults);
    SettingNumeric(point, dataPoints, portal, defaults, Queue);
    SettingNumeric(point, dataPoints, portal, defaults, Sampling);
    KeptAgain(point, dataPoints, portal, defaults, Queue);
    KeptAgain(point, dataPoints, portal, defaults, Sampling);
    CellsAgain(point, dataPoints, portal, defaults);
    PointDetermined(Cells(point, dataPoints, portal, defaults), Cells(s, dataPoints, portal, defaults),
                    Kept(point, dataPoints, portal, defaults, Queue),
                        Kept(point, dataPoints, portal, defaults, Sampling),
                    Kept(s, dataPoints, portal, defaults, Queue), Kept(s, dataPoints, portal, defaults, Sampling));
  }

  lemma SettledExportable(point: Point, dataPoints: bool, portal: bool, defaults: Entries)
    requires Numeric(Get(defaults, Prop(Queue), Missing)) && Numeric(Get(defaults, Prop(Sampling), Missing))
    ensures Exportable(Settled(point, dataPoints, portal, defaults), dataPoints, portal, defaults)
  {
    var s := Settled(point, dataPoints, portal, defaults);
    SettingAgain(point, dataPoints, portal, defaults, Queue);
    SettingAgain(point, dataPoints, portal, defaults, Sampling);
    SettledKeys(point, dataPoints, portal, defaults);
    SettledIs(point, dataPoints, portal, defaults);
    ExportWrites(s, dataPoints, portal, defaults);
  }

  lemma SettledKeys(point: Point, dataPoints: bool, portal: bool, defaults: Entries)
    ensures Unpacked(Settled(point, dataPoints, portal, defaults), dataPoints, portal).Keys
            <= PropKeys(Columns(dataPoints, portal))
  {
    var columns := Columns(dataPoints, portal);
    SettledUnpacks(point, dataPoints, portal, defaults);
    ConfigGets(Kept(point, dataPoints, portal, defaults, Queue), Kept(point, dataPoints, portal, defaults, Sampling));
    forall p | p in Properties(columns) ensures Prop(p) in PropKeys(columns) {
      var i := ColumnFor(columns, p);
      assert columns[i] in columns;
    }
  }

  // ---------- points that come from no CSV file ----------

  lemma {:induction false} NothingRenamed(d: Entries, headings: seq<Heading>)
    requires forall h: Heading :: Head(h) !in d
    ensures Renamed(d, headings) == d
  {
    if headings != [] { NothingRenamed(d, headings[..|headings| - 1]); }
  }

  /** The import passes a point that is already in the service's form, as in a JSON file, through
      unchanged but for the case of its mode. */
  lemma ImportPasses(point: Point)
    requires forall k | k in point.entries :: !k.Head? && k != Blank && k !in SETTINGS
    requires !Get(point.entries, Prop(Mode), Missing).Number?
    ensures Imported(point) == Some(point.(entries := Capitalized(point.entries).value))
  {
    var d := point.entries;
    assert d - {Blank} == d;
    NothingRenamed(d, HEADINGS);
    var e := Capitalized(d).value;
    assert forall k | k in e :: k in d;
    assert e - SETTINGS == e;
    ConfigGets(None, None);
  }
}

// Repair of a saved state before it is decoded: arbitrary JSON in, a tree the
// decoder's tagged enums can name out, with a warning for what was thrown away.

module SavedJson {
  import opened Wrappers
  import opened UnixTime

  /** Every string the repair code names, and all the others. */
  datatype Text =
    // object keys
    | SavedStateVersion | LayoutManager | Layouts | ActiveLayout | Name | DashboardKey | PaneKey | Popout
    | Axis | Ratio | A | B | LinkGroup | Settings | VisualConfig | IndicatorConfigs | GexLevelsKey
    | Indicators | StreamType | Kind
    // pane types
    | Split | Starter | HeatmapChart | ShaderHeatmap | KlineChart | GexChart | ComparisonChart | TimeAndSales | Ladder
    // other enum tags
    | Horizontal | Vertical | Default | Recovered | Candles | Footprint
    | Heatmap | Kline | Comparison | Gex | Depth | Trades | DepthAndTrades
    | Volume | BarAnalysis | CumulativeDelta | OpenInterest | VolumeBubbles | SessionVolumeProfile | Vwap | GexLevels
    | Other(text: string)

  datatype Number = Whole(n: int) | Float(x: real)

  datatype Json =
    | Null
    | Bool(b: bool)
    | Num(number: Number)
    | Str(text: Text)
    | Arr(items: seq<Json>)
    | Obj(fields: map<Text, Json>)

  type Fields = map<Text, Json>

  datatype Warning =
    | RootInvalid | LayoutManagerInvalid | LayoutsMissing | LayoutInvalid | DashboardInvalid
    | PopoutInvalid | PopoutTupleInvalid
    | PaneInvalid | PaneTagInvalid | SplitInvalid | AxisInvalid | PaneUnknown
    | ListInvalid | EntryUnknown | SettingsInvalid | VisualConfigUnknown | LegacyMoved | KindUnknown

  /** A value after repair, and the warnings the repair gave. */
  datatype Repaired = Repaired(value: Json, warnings: seq<Warning>)

  const CURRENT_SAVED_STATE_VERSION := 1

  const DEFAULT_PANE := Obj(map[Starter := Obj(map[LinkGroup := Null])])
  const DEFAULT_LAYOUT :=
    Obj(map[Name := Str(Default), DashboardKey := Obj(map[PaneKey := DEFAULT_PANE, Popout := Arr([])])])

  const STREAMS: set<Text> := {Kline, Depth, Trades, DepthAndTrades}
  const HEATMAP_INDICATORS: set<Text> := {Volume}
  const KLINE_INDICATORS: set<Text> :=
    {Volume, BarAnalysis, CumulativeDelta, OpenInterest, VolumeBubbles, SessionVolumeProfile, Vwap, GexLevels}
  const VISUALS: set<Text> := {Heatmap, TimeAndSales, Kline, Ladder, Comparison, Gex}
  const KINDS: set<Text> := {Footprint}

  // ------------------------------------------------------- tagged enums

  /** A tag alone, or an object whose one key is the tag. */
  predicate IsKnownTaggedEnum(v: Json, allowed: set<Text>) {
    match v
    case Str(text) => text in allowed
    case Obj(fields) => |fields| == 1 && fields.Keys <= allowed
    case _ => false
  }

  /** The in-order pass over a list, in which every entry gives way to what is kept of it. */
  function RepairEach(items: seq<Json>, keep: Json -> (seq<Json>, seq<Warning>)): (seq<Json>, seq<Warning>) {
    if items == [] then ([], [])
    else
      var (done, warnings) := RepairEach(items[..|items| - 1], keep);
      var (one, w) := keep(items[|items| - 1]);
      (done + one, warnings + w)
  }

  function KeepEntry(entry: Json, allowed: set<Text>): (seq<Json>, seq<Warning>) {
    if IsKnownTaggedEnum(entry, allowed) then ([entry], []) else ([], [EntryUnknown])
  }

  function KeepKnown(items: seq<Json>, allowed: set<Text>): (seq<Json>, seq<Warning>) {
    RepairEach(items, e => KeepEntry(e, allowed))
  }

  /** A list of tagged enums under `key`, when the object has one. */
  function SanitizeList(f: Fields, key: Text, allowed: set<Text>): (Fields, seq<Warning>) {
    if key !in f then (f, [])
    else
      match f[key]
      case Arr(items) =>
        var (kept, warnings) := KeepKnown(items, allowed);
        (f[key := Arr(kept)], warnings)
      case _ => (f[key := Arr([])], [ListInvalid])
  }

  function SanitizeKind(v: Json): Repaired {
    if v == Str(Candles) || IsKnownTaggedEnum(v, KINDS) then Repaired(v, [])
    else Repaired(Str(Candles), [KindUnknown])
  }

  // ------------------------------------------------------------ settings

  function DropVisualConfig(f: Fields): (Fields, seq<Warning>) {
    if VisualConfig in f && f[VisualConfig] != Null && !IsKnownTaggedEnum(f[VisualConfig], VISUALS)
    then (f - {VisualConfig}, [VisualConfigUnknown])
    else (f, [])
  }

  /** Moves `gex_levels` under `indicator_configs`, unless that already has one. */
  function MoveGexLevels(kline: Fields): (Fields, seq<Warning>) {
    if GexLevelsKey !in kline then (kline, [])
    else
      var legacy, rest := kline[GexLevelsKey], kline - {GexLevelsKey};
      var configs := if IndicatorConfigs in rest then rest[IndicatorConfigs] else Obj(map[]);
      match configs
      case Obj(c) =>
        (rest[IndicatorConfigs := Obj(if GexLevelsKey in c then c else c[GexLevelsKey := legacy])], [LegacyMoved])
      case _ => (rest, [])
  }

  predicate HasKlineConfig(f: Fields) {
    && VisualConfig in f && f[VisualConfig].Obj?
    && Kline in f[VisualConfig].fields && f[VisualConfig].fields[Kline].Obj?
  }

  function MigrateKline(f: Fields): (Fields, seq<Warning>) {
    if HasKlineConfig(f) then
      var config := f[VisualConfig].fields;
      var (kline, warnings) := MoveGexLevels(config[Kline].fields);
      (f[VisualConfig := Obj(config[Kline := Obj(kline)])], warnings)
    else (f, [])
  }

  function SanitizeSettings(v: Json): Repaired {
    match v
    case Obj(f) =>
      var (f1, w1) := DropVisualConfig(f);
      var (f2, w2) := MigrateKline(f1);
      Repaired(Obj(f2), w1 + w2)
    case _ => Repaired(Obj(map[]), [SettingsInvalid])
  }

  // --------------------------------------------------------------- panes

  function Entry(f: Fields, key: Text, default: Json): Json {
    if key in f then f[key] else default
  }

  function SettleSettings(f: Fields): (Fields, seq<Warning>) {
    var r := SanitizeSettings(Entry(f, Settings, Obj(map[])));
    (f[Settings := r.value], r.warnings)
  }

  function SettleKind(f: Fields): (Fields, seq<Warning>) {
    var r := SanitizeKind(Entry(f, Kind, Str(Candles)));
    (f[Kind := r.value], r.warnings)
  }

  function SanitizeHeatmap(f: Fields): (Fields, seq<Warning>) {
    var (f1, w1) := SanitizeList(f, Indicators, HEATMAP_INDICATORS);
    var (f2, w2) := SanitizeList(f1, StreamType, STREAMS);
    var (f3, w3) := SettleSettings(f2);
    (f3, w1 + w2 + w3)
  }

  function SanitizeKlineChart(f: Fields): (Fields, seq<Warning>) {
    var (f1, w1) := SanitizeList(f, Indicators, KLINE_INDICATORS);
    var (f2, w2) := SanitizeList(f1, StreamType, STREAMS);
    var (f3, w3) := SettleKind(f2);
    var (f4, w4) := SettleSettings(f3);
    (f4, w1 + w2 + w3 + w4)
  }

  function SanitizeStreams(f: Fields): (Fields, seq<Warning>) {
    var (f1, w1) := SanitizeList(f, StreamType, STREAMS);
    var (f2, w2) := SettleSettings(f1);
    (f2, w1 + w2)
  }

  /** The contents of a leaf pane, by its type. */
  function SanitizeLeaf(tag: Text, f: Fields): (Fields, seq<Warning>) {
    if tag == HeatmapChart || tag == ShaderHeatmap then SanitizeHeatmap(f)
    else if tag == KlineChart then SanitizeKlineChart(f)
    else if tag == GexChart then SettleSettings(f)
    else if tag == ComparisonChart || tag == TimeAndSales || tag == Ladder then SanitizeStreams(f)
    else (f, [])
  }

  const LEAVES: set<Text> :=
    {Starter, HeatmapChart, ShaderHeatmap, KlineChart, GexChart, ComparisonChart, TimeAndSales, Ladder}

  function AsF64(v: Json): Option<real> {
    match v
    case Num(Whole(n)) => Some(n as real)
    case Num(Float(x)) => Some(x)
    case _ => None
  }

  const MIN_RATIO := 0.05
  const MAX_RATIO := 0.95

  function Clamp(x: real): real {
    if x < MIN_RATIO then MIN_RATIO else if x > MAX_RATIO then MAX_RATIO else x
  }

  function RatioOf(s: Fields): real {
    var x := if Ratio in s then AsF64(s[Ratio]) else None;
    Clamp(if x.Some? then x.value else 0.5)
  }

  predicate AxisOk(s: Fields) {
    Axis in s && (s[Axis] == Str(Horizontal) || s[Axis] == Str(Vertical))
  }

  /** A split with a legal axis and a ratio inside the limits; its children are still as they were. */
  function FixSplit(s: Fields): (Fields, seq<Warning>) {
    if AxisOk(s) then (s[Ratio := Num(Float(RatioOf(s)))], [])
    else (s[Axis := Str(Horizontal)][Ratio := Num(Float(RatioOf(s)))], [AxisInvalid])
  }

  /** A split put together from its repaired children. */
  function JoinSplit(s: Fields, a: Repaired, b: Repaired): Repaired {
    var (s1, w) := FixSplit(s);
    Repaired(Obj(map[Split := Obj(s1[A := a.value][B := b.value])]), w + a.warnings + b.warnings)
  }

  /** The child under a key, repaired; a missing one becomes a starter pane. */
  function Child(split: Json, key: Text): Repaired
    requires split.Obj?
    decreases split, 0
  {
    if key in split.fields then SanitizePane(split.fields[key]) else Repaired(DEFAULT_PANE, [])
  }

  function SanitizeSplit(split: Json): Repaired
    requires split.Obj?
    decreases split, 1
  {
    JoinSplit(split.fields, Child(split, A), Child(split, B))
  }

  function SanitizePane(v: Json): Repaired
    decreases v, 2
  {
    match v
    case Obj(f) =>
      if |f| != 1 then Repaired(DEFAULT_PANE, [PaneTagInvalid])
      else if Split in f then
        match f[Split]
        case Obj(_) => SanitizeSplit(f[Split])
        case _ => Repaired(DEFAULT_PANE, [SplitInvalid])
      else if f.Keys <= LEAVES then SanitizeLeafPane(f)
      else Repaired(DEFAULT_PANE, [PaneUnknown])
    case _ => Repaired(DEFAULT_PANE, [PaneInvalid])
  }

  function OnlyKey(f: Fields): Text
    requires f.Keys <= LEAVES
  {
    if HeatmapChart in f then HeatmapChart
    else if ShaderHeatmap in f then ShaderHeatmap
    else if KlineChart in f then KlineChart
    else if GexChart in f then GexChart
    else if ComparisonChart in f then ComparisonChart
    else if TimeAndSales in f then TimeAndSales
    else if Ladder in f then Ladder
    else Starter
  }

  function SanitizeLeafPane(f: Fields): Repaired
    requires |f| == 1 && f.Keys <= LEAVES
  {
    var tag := OnlyKey(f);
    if tag in f && f[tag].Obj? then
      var (inner, warnings) := SanitizeLeaf(tag, f[tag].fields);
      Repaired(Obj(f[tag := Obj(inner)]), warnings)
    else Repaired(Obj(f), [])
  }

  // ------------------------------------------------- dashboards and above

  /** A popout pair with its pane repaired, or nothing. */
  function KeepPopout(entry: Json): (seq<Json>, seq<Warning>) {
    match entry
    case Arr(pair) =>
      if |pair| != 2 then ([], [PopoutTupleInvalid])
      else
        var r := SanitizePane(pair[0]);
        ([Arr([r.value, pair[1]])], r.warnings)
    case _ => ([], [PopoutInvalid])
  }

  function SanitizePopouts(f: Fields): (Fields, seq<Warning>) {
    if Popout in f && f[Popout].Arr? then
      var (kept, warnings) := RepairEach(f[Popout].items, KeepPopout);
      (f[Popout := Arr(kept)], warnings)
    else (f[Popout := Arr([])], [])
  }

  function SanitizeDashboard(v: Json): Repaired {
    match v
    case Obj(f) =>
      var pane := SanitizePane(Entry(f, PaneKey, DEFAULT_PANE));
      var (f1, w1) := SanitizePopouts(f[PaneKey := pane.value]);
      Repaired(Obj(f1), pane.warnings + w1)
    case _ => Repaired(Obj(map[PaneKey := DEFAULT_PANE, Popout := Arr([])]), [DashboardInvalid])
  }

  function SanitizeLayout(v: Json): Repaired {
    match v
    case Obj(f) =>
      var named := if Name in f && f[Name].Str? then f else f[Name := Str(Recovered)];
      var r := SanitizeDashboard(Entry(named, DashboardKey, Obj(map[])));
      Repaired(Obj(named[DashboardKey := r.value]), r.warnings)
    case _ => Repaired(DEFAULT_LAYOUT, [LayoutInvalid])
  }

  function KeepLayout(entry: Json): (seq<Json>, seq<Warning>) {
    var r := SanitizeLayout(entry);
    ([r.value], r.warnings)
  }

  function SanitizeLayoutManager(v: Json): Repaired {
    match v
    case Obj(f) =>
      if Layouts in f && f[Layouts].Arr? then
        var (layouts, warnings) := RepairEach(f[Layouts].items, KeepLayout);
        Repaired(Obj(f[Layouts := Arr(layouts)]), warnings)
      else Repaired(Obj(f[Layouts := Arr([DEFAULT_LAYOUT])]), [LayoutsMissing])
    case _ => Repaired(Obj(map[Layouts := Arr([DEFAULT_LAYOUT]), ActiveLayout := Str(Default)]), [LayoutManagerInvalid])
  }

  /** The version the file was written with; anything unreadable counts as 0. */
  function FromVersion(v: Json): nat {
    if v.Obj? && SavedStateVersion in v.fields && v.fields[SavedStateVersion].Num?
       && v.fields[SavedStateVersion].number.Whole? && 0 <= v.fields[SavedStateVersion].number.n <= U32_MAX
    then v.fields[SavedStateVersion].number.n
    else 0
  }

  function MigrateSavedState(v: Json): Repaired {
    var root := if v.Obj? then v.fields else map[];
    var w := if v.Obj? then [] else [RootInvalid];
    var stamped := root[SavedStateVersion := Num(Whole(CURRENT_SAVED_STATE_VERSION))];
    if LayoutManager in stamped then
      var r := SanitizeLayoutManager(stamped[LayoutManager]);
      Repaired(Obj(stamped[LayoutManager := r.value]), w + r.warnings)
    else Repaired(Obj(stamped), w)
  }
}

module SavedJsonTheorems {
  import opened Wrappers
  import opened UnixTime
  import opened SavedJson

  // ------------------------------------------------ what a clean tree is

  ghost predicate CleanList(f: Fields, key: Text, allowed: set<Text>) {
    key in f ==> f[key].Arr? && forall e :: e in f[key].items ==> IsKnownTaggedEnum(e, allowed)
  }

  ghost predicate CleanSettings(v: Json) {
    && v.Obj?
    && (VisualConfig in v.fields ==>
          v.fields[VisualConfig] == Null || IsKnownTaggedEnum(v.fields[VisualConfig], VISUALS))
    && (HasKlineConfig(v.fields) ==> GexLevelsKey !in v.fields[VisualConfig].fields[Kline].fields)
  }

  ghost predicate CleanKind(v: Json) {
    v == Str(Candles) || IsKnownTaggedEnum(v, KINDS)
  }

  ghost predicate SettingsIn(f: Fields) {
    Settings in f && CleanSettings(f[Settings])
  }

  ghost predicate CleanHeatmap(f: Fields) {
    CleanList(f, Indicators, HEATMAP_INDICATORS) && CleanList(f, StreamType, STREAMS) && SettingsIn(f)
  }

  ghost predicate CleanKlineChart(f: Fields) {
    && CleanList(f, Indicators, KLINE_INDICATORS) && CleanList(f, StreamType, STREAMS)
    && Kind in f && CleanKind(f[Kind]) && SettingsIn(f)
  }

  ghost predicate CleanStreams(f: Fields) {
    CleanList(f, StreamType, STREAMS) && SettingsIn(f)
  }

  ghost predicate CleanLeaf(tag: Text, f: Fields) {
    if tag == HeatmapChart || tag == ShaderHeatmap then CleanHeatmap(f)
    else if tag == KlineChart then CleanKlineChart(f)
    else if tag == GexChart then SettingsIn(f)
    else if tag == ComparisonChart || tag == TimeAndSales || tag == Ladder then CleanStreams(f)
    else true
  }

  ghost predicate CleanSplit(s: Fields) {
    && AxisOk(s)
    && Ratio in s && s[Ratio].Num? && s[Ratio].number.Float? && MIN_RATIO <= s[Ratio].number.x <= MAX_RATIO
  }

  /** Split nodes have a legal axis, a ratio within limits and two clean children; leaves carry allowed tags only. */
  ghost predicate CleanPane(v: Json)
    decreases v
  {
    && v.Obj? && |v.fields| == 1
    && (if Split in v.fields then
          && v.fields[Split].Obj?
          && var s := v.fields[Split].fields;
             && CleanSplit(s)
             && A in s && CleanPane(s[A]) && B in s && CleanPane(s[B])
        else
          && v.fields.Keys <= LEAVES
          && var tag := OnlyKey(v.fields);
             tag in v.fields && (v.fields[tag].Obj? ==> CleanLeaf(tag, v.fields[tag].fields)))
  }

  ghost predicate CleanPopout(v: Json) {
    v.Arr? && |v.items| == 2 && CleanPane(v.items[0])
  }

  ghost predicate CleanDashboard(v: Json) {
    && v.Obj?
    && PaneKey in v.fields && CleanPane(v.fields[PaneKey])
    && Popout in v.fields && v.fields[Popout].Arr? 
    && forall e :: e in v.fields[Popout].items ==> CleanPopout(e)
  }

  ghost predicate CleanLayout(v: Json) {
    && v.Obj?
    && Name in v.fields && v.fields[Name].Str?
    && DashboardKey in v.fields && CleanDashboard(v.fields[DashboardKey])
  }

  ghost predicate CleanLayoutManager(v: Json) {
    && v.Obj? && Layouts in v.fields && v.fields[Layouts].Arr?
    && forall e :: e in v.fields[Layouts].items ==> CleanLayout(e)
  }

  ghost predicate CleanState(v: Json) {
    && v.Obj?
    && SavedStateVersion in v.fields && v.fields[SavedStateVersion] == Num(Whole(CURRENT_SAVED_STATE_VERSION))
    && (LayoutManager in v.fields ==> CleanLayoutManager(v.fields[LayoutManager]))
  }

  // ------------------------------------- repair cleans, and spares the clean

  /** When each entry is kept clean or dropped, and clean ones are kept as they are, so is the list. */
  lemma {:induction false} EachRepaired(items: seq<Json>, keep: Json -> (seq<Json>, seq<Warning>), clean: Json -> bool)
    requires forall e :: e in items ==>
      && (forall x :: x in keep(e).0 ==> clean(x))
      && (clean(e) ==> keep(e) == ([e], []))
    ensures forall x :: x in RepairEach(items, keep).0 ==> clean(x)
    ensures (forall e :: e in items ==> clean(e)) ==> RepairEach(items, keep) == (items, [])
  {
    if items != [] {
      var front, entry := items[..|items| - 1], items[|items| - 1];
      assert forall e :: e in front ==> e in items;
      EachRepaired(front, keep, clean);
      assert entry in items && items == front + [entry];
      if forall e :: e in items ==> clean(e) {
        assert keep(entry) == ([entry], []) && RepairEach(front, keep) == (front, []);
        assert RepairEach(items, keep).0 == items && RepairEach(items, keep).1 == [];
      }
    }
  }

  /** Exactly the known entries survive, and each loss is one warning. */
  lemma {:induction false} KnownSurvive(items: seq<Json>, allowed: set<Text>, e: Json)
    ensures e in KeepKnown(items, allowed).0 <==> e in items && IsKnownTaggedEnum(e, allowed)
    ensures |KeepKnown(items, allowed).0| + |KeepKnown(items, allowed).1| == |items|
  {
    if items != [] {
      var front, entry := items[..|items| - 1], items[|items| - 1];
      KnownSurvive(front, allowed, e);
      assert items == front + [entry];
      assert KeepKnown(front, allowed) == RepairEach(front, x => KeepEntry(x, allowed));
    }
  }

  lemma ListCleaned(f: Fields, key: Text, allowed: set<Text>)
    ensures CleanList(SanitizeList(f, key, allowed).0, key, allowed)
    ensures CleanList(f, key, allowed) <==> SanitizeList(f, key, allowed) == (f, [])
    ensures var r := SanitizeList(f, key, allowed).0; if key in f then key in r && r == f[key := r[key]] else r == f
  {
    if key in f && f[key].Arr? {
      EachRepaired(f[key].items, e => KeepEntry(e, allowed), e => IsKnownTaggedEnum(e, allowed));
      SameUpdate(f, key);
    }
  }

  lemma SameUpdate<V>(m: map<Text, V>, k: Text)
    requires k in m
    ensures m[k := m[k]] == m
  {
  }

  lemma SettingsCleaned(v: Json)
    ensures CleanSettings(SanitizeSettings(v).value)
    ensures CleanSettings(v) <==> SanitizeSettings(v) == Repaired(v, [])
  {
    if v.Obj? {
      var f1 := DropVisualConfig(v.fields).0;
      if HasKlineConfig(f1) {
        var config := f1[VisualConfig].fields;
        assert config.Keys == {Kline} by { OneKey(config, Kline); }
        var kline := MoveGexLevels(config[Kline].fields).0;
        assert config[Kline := Obj(kline)].Keys == {Kline};
        SameUpdate(config, Kline);
        SameUpdate(f1, VisualConfig);
      }
    }
  }

  lemma OneKey<V>(m: map<Text, V>, k: Text)
    requires |m| == 1 && k in m
    ensures m.Keys == {k}
  {
    assert |m.Keys - {k}| == 0;
  }

  lemma LeafCleaned(tag: Text, f: Fields)
    ensures CleanLeaf(tag, SanitizeLeaf(tag, f).0)
    ensures CleanLeaf(tag, f) <==> SanitizeLeaf(tag, f) == (f, [])
  {
    if tag == HeatmapChart || tag == ShaderHeatmap {
      HeatmapCleaned(f);
    } else if tag == KlineChart {
      KlineChartCleaned(f);
    } else if tag == GexChart {
      SettingsSettled(f);
    } else if tag == ComparisonChart || tag == TimeAndSales || tag == Ladder {
      StreamsCleaned(f);
    }
  }

  lemma SettingsSettled(f: Fields)
    ensures SettingsIn(SettleSettings(f).0)
    ensures SettingsIn(f) ==> SettleSettings(f) == (f, [])
  {
    SettingsCleaned(Entry(f, Settings, Obj(map[])));
    if Settings in f { SameUpdate(f, Settings); }
  }

  lemma KindSettled(f: Fields)
    ensures var r := SettleKind(f).0; Kind in r && CleanKind(r[Kind])
    ensures Kind in f && CleanKind(f[Kind]) ==> SettleKind(f) == (f, [])
  {
    if Kind in f { SameUpdate(f, Kind); }
  }

  lemma StreamsCleaned(f: Fields)
    ensures CleanStreams(SanitizeStreams(f).0)
    ensures CleanStreams(f) ==> SanitizeStreams(f) == (f, [])
  {
    ListCleaned(f, StreamType, STREAMS);
    SettingsSettled(SanitizeList(f, StreamType, STREAMS).0);
  }

  lemma HeatmapCleaned(f: Fields)
    ensures CleanHeatmap(SanitizeHeatmap(f).0)
    ensures CleanHeatmap(f) ==> SanitizeHeatmap(f) == (f, [])
  {
    ListCleaned(f, Indicators, HEATMAP_INDICATORS);
    var f1 := SanitizeList(f, Indicators, HEATMAP_INDICATORS).0;
    ListCleaned(f1, StreamType, STREAMS);
    SettingsSettled(SanitizeList(f1, StreamType, STREAMS).0);
  }

  lemma KlineChartCleaned(f: Fields)
    ensures CleanKlineChart(SanitizeKlineChart(f).0)
    ensures CleanKlineChart(f) ==> SanitizeKlineChart(f) == (f, [])
  {
    ListCleaned(f, Indicators, KLINE_INDICATORS);
    var f1 := SanitizeList(f, Indicators, KLINE_INDICATORS).0;
    ListCleaned(f1, StreamType, STREAMS);
    var f2 := SanitizeList(f1, StreamType, STREAMS).0;
    KindSettled(f2);
    SettingsSettled(SettleKind(f2).0);
  }

  lemma DefaultPaneClean()
    ensures CleanPane(DEFAULT_PANE)
  {
    assert DEFAULT_PANE.fields.Keys == {Starter};
  }

  /** The tag of a leaf pane is the object's one key. */
  lemma TagIsKey(f: Fields)
    requires |f| == 1 && f.Keys <= LEAVES
    ensures f.Keys == {OnlyKey(f)}
  {
    var k :| k in f;
    OneKey(f, k);
  }

  lemma LeafPaneCleaned(f: Fields)
    requires |f| == 1 && f.Keys <= LEAVES
    ensures CleanPane(SanitizeLeafPane(f).value)
    ensures CleanPane(Obj(f)) ==> SanitizeLeafPane(f) == Repaired(Obj(f), [])
  {
    TagIsKey(f);
    var tag := OnlyKey(f);
    if f[tag].Obj? {
      LeafCleaned(tag, f[tag].fields);
      var r := f[tag := Obj(SanitizeLeaf(tag, f[tag].fields).0)];
      assert r.Keys == {tag};
      SameUpdate(f, tag);
    }
  }

  /**
   * Whatever the value, repair leaves a clean pane, and leaves a pane alone without a
   * warning exactly when it is clean.
   */
  lemma {:induction false} PaneCleaned(v: Json)
    ensures CleanPane(SanitizePane(v).value)
    ensures CleanPane(v) <==> SanitizePane(v) == Repaired(v, [])
    decreases v, 1
  {
    DefaultPaneClean();
    if v.Obj? && |v.fields| == 1 {
      if Split in v.fields {
        if v.fields[Split].Obj? {
          var node := v.fields[Split];
          ChildCleaned(node, A);
          ChildCleaned(node, B);
          SplitStep(v, node.fields, Child(node, A), Child(node, B));
        }
      } else if v.fields.Keys <= LEAVES {
        LeafPaneCleaned(v.fields);
      }
    }
  }

  lemma {:induction false} ChildCleaned(split: Json, key: Text)
    requires split.Obj?
    ensures CleanPane(Child(split, key).value)
    ensures key in split.fields && CleanPane(split.fields[key]) ==> Child(split, key) == Repaired(split.fields[key], [])
    decreases split, 0
  {
    DefaultPaneClean();
    if key in split.fields { PaneCleaned(split.fields[key]); }
  }

  lemma SplitStep(v: Json, s: Fields, a: Repaired, b: Repaired)
    requires v.Obj? && |v.fields| == 1 && Split in v.fields && v.fields[Split] == Obj(s)
    requires SanitizePane(v) == JoinSplit(s, a, b) && CleanPane(a.value) && CleanPane(b.value)
    requires A in s && CleanPane(s[A]) ==> a == Repaired(s[A], [])
    requires B in s && CleanPane(s[B]) ==> b == Repaired(s[B], [])
    ensures CleanPane(SanitizePane(v).value)
    ensures CleanPane(v) ==> SanitizePane(v) == Repaired(v, [])
  {
    SplitCleaned(s, a, b);
    if CleanPane(v) { CleanSplitKept(v.fields, s); }
  }

  lemma SplitCleaned(s: Fields, a: Repaired, b: Repaired)
    requires CleanPane(a.value) && CleanPane(b.value)
    ensures CleanPane(JoinSplit(s, a, b).value)
  {
    var v := JoinSplit(s, a, b).value;
    assert v.fields.Keys == {Split};
    var r := v.fields[Split].fields;
    assert r[A] == a.value && r[B] == b.value && CleanSplit(r);
  }

  lemma CleanSplitKept(f: Fields, s: Fields)
    requires |f| == 1 && Split in f && f[Split] == Obj(s) && CleanSplit(s) && A in s && B in s
    ensures JoinSplit(s, Repaired(s[A], []), Repaired(s[B], [])) == Repaired(Obj(f), [])
  {
    OneKey(f, Split);
    assert FixSplit(s) == (s, []) by { SameUpdate(s, Ratio); }
    SameUpdate(s, A);
    SameUpdate(s, B);
    assert f == map[Split := Obj(s)];
  }

  lemma PopoutKept(entry: Json)
    ensures forall x :: x in KeepPopout(entry).0 ==> CleanPopout(x)
    ensures CleanPopout(entry) ==> KeepPopout(entry) == ([entry], [])
  {
    if entry.Arr? && |entry.items| == 2 {
      PaneCleaned(entry.items[0]);
      assert entry.items == [entry.items[0], entry.items[1]];
    }
  }

  lemma PopoutsKept(items: seq<Json>)
    ensures forall x :: x in RepairEach(items, KeepPopout).0 ==> CleanPopout(x)
    ensures (forall e :: e in items ==> CleanPopout(e)) ==> RepairEach(items, KeepPopout) == (items, [])
  {
    forall e | e in items
      ensures (forall x :: x in KeepPopout(e).0 ==> CleanPopout(x))
      ensures CleanPopout(e) ==> KeepPopout(e) == ([e], [])
    {
      PopoutKept(e);
    }
    EachRepaired(items, KeepPopout, x => CleanPopout(x));
  }

  lemma DashboardCleaned(v: Json)
    ensures CleanDashboard(SanitizeDashboard(v).value)
    ensures CleanDashboard(v) <==> SanitizeDashboard(v) == Repaired(v, [])
  {
    DefaultPaneClean();
    if v.Obj? {
      var f := v.fields;
      PaneCleaned(Entry(f, PaneKey, DEFAULT_PANE));
      var f0 := f[PaneKey := SanitizePane(Entry(f, PaneKey, DEFAULT_PANE)).value];
      if Popout in f0 && f0[Popout].Arr? { PopoutsKept(f0[Popout].items); }
      if CleanDashboard(v) {
        SameUpdate(f, PaneKey);
        SameUpdate(f, Popout);
      }
    }
  }

  lemma DefaultLayoutClean()
    ensures CleanLayout(DEFAULT_LAYOUT)
  {
    DefaultPaneClean();
  }

  lemma LayoutCleaned(v: Json)
    ensures CleanLayout(SanitizeLayout(v).value)
    ensures CleanLayout(v) <==> SanitizeLayout(v) == Repaired(v, [])
  {
    DefaultLayoutClean();
    if v.Obj? {
      var f := v.fields;
      var named := if Name in f && f[Name].Str? then f else f[Name := Str(Recovered)];
      DashboardCleaned(Entry(named, DashboardKey, Obj(map[])));
      if CleanLayout(v) { SameUpdate(f, DashboardKey); }
    }
  }

  lemma LayoutsCleaned(items: seq<Json>)
    ensures forall x :: x in RepairEach(items, KeepLayout).0 ==> CleanLayout(x)
    ensures (forall e :: e in items ==> CleanLayout(e)) ==> RepairEach(items, KeepLayout) == (items, [])
  {
    forall e | e in items
      ensures forall x :: x in KeepLayout(e).0 ==> CleanLayout(x)
      ensures CleanLayout(e) ==> KeepLayout(e) == ([e], [])
    {
      LayoutCleaned(e);
    }
    EachRepaired(items, KeepLayout, x => CleanLayout(x));
  }

  lemma LayoutManagerCleaned(v: Json)
    ensures CleanLayoutManager(SanitizeLayoutManager(v).value)
    ensures CleanLayoutManager(v) <==> SanitizeLayoutManager(v) == Repaired(v, [])
  {
    DefaultLayoutClean();
    if v.Obj? && Layouts in v.fields && v.fields[Layouts].Arr? {
      LayoutsCleaned(v.fields[Layouts].items);
      if CleanLayoutManager(v) { SameUpdate(v.fields, Layouts); }
    }
  }

  /**
   * For any JSON value the repair yields a clean state, and it leaves a value
   * alone without a warning exactly when that value is already clean.
   */
  lemma StateCleaned(v: Json)
    ensures CleanState(MigrateSavedState(v).value)
    ensures CleanState(v) <==> MigrateSavedState(v) == Repaired(v, [])
  {
    var root := if v.Obj? then v.fields else map[];
    var stamped := root[SavedStateVersion := Num(Whole(CURRENT_SAVED_STATE_VERSION))];
    if LayoutManager in stamped { LayoutManagerCleaned(stamped[LayoutManager]); }
    if CleanState(v) {
      SameUpdate(v.fields, SavedStateVersion);
      if LayoutManager in v.fields { SameUpdate(v.fields, LayoutManager); }
    }
  }

  /** A second pass changes nothing, warns of nothing, and sees the current version. */
  lemma RepairSettles(v: Json)
    ensures var once := MigrateSavedState(v).value;
      MigrateSavedState(once) == Repaired(once, []) && FromVersion(once) == CURRENT_SAVED_STATE_VERSION
  {
    StateCleaned(v);
    StateCleaned(MigrateSavedState(v).value);
  }

  // ------------------------------------------- what repair does not touch

  /**
   * A repaired split keeps its axis and ratio when these were fine, has defaults where there
   * were none, and keeps everything the repair does not name.
   */
  lemma SplitKeepsRest(s: Fields, a: Repaired, b: Repaired)
    ensures var t := JoinSplit(s, a, b).value.fields[Split].fields;
      && t.Keys == s.Keys + {Axis, Ratio, A, B} && t[A] == a.value && t[B] == b.value
      && t[Axis] == (if AxisOk(s) then s[Axis] else Str(Horizontal))
      && (Ratio in s && AsF64(s[Ratio]).Some? && MIN_RATIO <= AsF64(s[Ratio]).value <= MAX_RATIO ==>
            t[Ratio] == Num(Float(AsF64(s[Ratio]).value)))
      && (Ratio !in s || AsF64(s[Ratio]).None? ==> t[Ratio] == Num(Float(0.5)))
      && (forall k :: k in s && k !in {Axis, Ratio, A, B} ==> t[k] == s[k])
  {
  }

  /** Moving the legacy levels loses neither them nor newer ones, unless the place they belong to is not an object. */
  lemma LegacyLevelsKept(kline: Fields)
    requires GexLevelsKey in kline
    ensures var (r, w) := MoveGexLevels(kline);
      && GexLevelsKey !in r
      && (forall k :: k in kline && k !in {GexLevelsKey, IndicatorConfigs} ==> k in r && r[k] == kline[k])
      && (if IndicatorConfigs in kline && !kline[IndicatorConfigs].Obj?
          then w == [] && r[IndicatorConfigs] == kline[IndicatorConfigs]
          else && w == [LegacyMoved] && r[IndicatorConfigs].Obj?
               && var newer := if IndicatorConfigs in kline then kline[IndicatorConfigs].fields else map[];
                  r[IndicatorConfigs].fields == map[GexLevelsKey := kline[GexLevelsKey]] + newer)
  {
    var newer :=
      if IndicatorConfigs in kline && kline[IndicatorConfigs].Obj? then kline[IndicatorConfigs].fields else map[];
    if GexLevelsKey in newer { assert map[GexLevelsKey := kline[GexLevelsKey]] + newer == newer; }
    else { assert map[GexLevelsKey := kline[GexLevelsKey]] + newer == newer[GexLevelsKey := kline[GexLevelsKey]]; }
  }
}

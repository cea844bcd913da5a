// When the repair of a saved state gives a warning: not for everything it
// changes. The predicates say of the value before repair that it stays quiet.

module SavedWarnings {
  import opened Wrappers
  import opened UnixTime
  import opened SavedJson
  import opened SavedJsonTheorems

  /** Legacy levels move with a warning, but are dropped without one where there is no object to move them to. */
  ghost predicate QuietSettings(v: Json) {
    && v.Obj?
    && (VisualConfig in v.fields ==>
          v.fields[VisualConfig] == Null || IsKnownTaggedEnum(v.fields[VisualConfig], VISUALS))
    && (HasKlineConfig(v.fields) ==> QuietLevels(v.fields[VisualConfig].fields[Kline].fields))
  }

  ghost predicate QuietLevels(kline: Fields) {
    GexLevelsKey in kline ==> IndicatorConfigs in kline && !kline[IndicatorConfigs].Obj?
  }

  /** Missing settings are added without a warning. */
  ghost predicate QuietSettingsIn(f: Fields) {
    Settings in f ==> QuietSettings(f[Settings])
  }

  ghost predicate QuietLeaf(tag: Text, f: Fields) {
    if tag == HeatmapChart || tag == ShaderHeatmap then
      CleanList(f, Indicators, HEATMAP_INDICATORS) && CleanList(f, StreamType, STREAMS) && QuietSettingsIn(f)
    else if tag == KlineChart then
      && CleanList(f, Indicators, KLINE_INDICATORS) && CleanList(f, StreamType, STREAMS)
      && (Kind in f ==> CleanKind(f[Kind])) && QuietSettingsIn(f)
    else if tag == GexChart then QuietSettingsIn(f)
    else if tag == ComparisonChart || tag == TimeAndSales || tag == Ladder then
      CleanList(f, StreamType, STREAMS) && QuietSettingsIn(f)
    else true
  }

  /** A ratio out of range and missing children are repaired without a warning. */
  ghost predicate QuietPane(v: Json)
    decreases v
  {
    && v.Obj? && |v.fields| == 1
    && (if Split in v.fields then
          && v.fields[Split].Obj?
          && var s := v.fields[Split].fields;
             AxisOk(s) && (A in s ==> QuietPane(s[A])) && (B in s ==> QuietPane(s[B]))
        else
          && v.fields.Keys <= LEAVES
          && var tag := OnlyKey(v.fields);
             tag in v.fields && (v.fields[tag].Obj? ==> QuietLeaf(tag, v.fields[tag].fields)))
  }

  ghost predicate QuietPopout(v: Json) {
    v.Arr? && |v.items| == 2 && QuietPane(v.items[0])
  }

  /** A missing pane or popout list is added without a warning. */
  ghost predicate QuietDashboard(v: Json) {
    && v.Obj?
    && (PaneKey in v.fields ==> QuietPane(v.fields[PaneKey]))
    && (Popout in v.fields && v.fields[Popout].Arr? ==> forall e :: e in v.fields[Popout].items ==> QuietPopout(e))
  }

  /** A missing name or dashboard is added without a warning. */
  ghost predicate QuietLayout(v: Json) {
    v.Obj? && (DashboardKey in v.fields ==> QuietDashboard(v.fields[DashboardKey]))
  }

  ghost predicate QuietLayoutManager(v: Json) {
    && v.Obj? && Layouts in v.fields && v.fields[Layouts].Arr?
    && forall e :: e in v.fields[Layouts].items ==> QuietLayout(e)
  }

  ghost predicate QuietState(v: Json) {
    v.Obj? && (LayoutManager in v.fields ==> QuietLayoutManager(v.fields[LayoutManager]))
  }

  // ---------------------------------------------------- and that it does

  lemma {:induction false} EachWarns(items: seq<Json>, keep: Json -> (seq<Json>, seq<Warning>))
    ensures RepairEach(items, keep).1 == [] <==> forall e :: e in items ==> keep(e).1 == []
  {
    if items != [] {
      var front, entry := items[..|items| - 1], items[|items| - 1];
      EachWarns(front, keep);
      assert items == front + [entry];
    }
  }

  /** A tag list gives a warning exactly when it is not an array of known tags. */
  lemma ListWarns(f: Fields, key: Text, allowed: set<Text>)
    ensures SanitizeList(f, key, allowed).1 == [] <==> CleanList(f, key, allowed)
  {
    if key in f && f[key].Arr? { EachWarns(f[key].items, e => KeepEntry(e, allowed)); }
  }

  lemma SettingsWarn(v: Json)
    ensures SanitizeSettings(v).warnings == [] <==> QuietSettings(v)
  {
    if v.Obj? && QuietSettings(v) { assert DropVisualConfig(v.fields) == (v.fields, []); }
  }

  lemma SettingsInWarn(f: Fields)
    ensures SettleSettings(f).1 == [] <==> QuietSettingsIn(f)
  {
    SettingsWarn(Entry(f, Settings, Obj(map[])));
  }

  lemma HeatmapWarns(f: Fields)
    ensures SanitizeHeatmap(f).1 == [] <==>
      CleanList(f, Indicators, HEATMAP_INDICATORS) && CleanList(f, StreamType, STREAMS) && QuietSettingsIn(f)
  {
    var f1 := SanitizeList(f, Indicators, HEATMAP_INDICATORS).0;
    ListWarns(f, Indicators, HEATMAP_INDICATORS);
    ListCleaned(f, Indicators, HEATMAP_INDICATORS);
    ListWarns(f1, StreamType, STREAMS);
    ListCleaned(f1, StreamType, STREAMS);
    SettingsInWarn(SanitizeList(f1, StreamType, STREAMS).0);
  }

  lemma KlineChartWarns(f: Fields)
    ensures SanitizeKlineChart(f).1 == [] <==>
      && CleanList(f, Indicators, KLINE_INDICATORS) && CleanList(f, StreamType, STREAMS)
      && (Kind in f ==> CleanKind(f[Kind])) && QuietSettingsIn(f)
  {
    var f1 := SanitizeList(f, Indicators, KLINE_INDICATORS).0;
    ListWarns(f, Indicators, KLINE_INDICATORS);
    ListCleaned(f, Indicators, KLINE_INDICATORS);
    var f2 := SanitizeList(f1, StreamType, STREAMS).0;
    ListWarns(f1, StreamType, STREAMS);
    ListCleaned(f1, StreamType, STREAMS);
    SettingsInWarn(SettleKind(f2).0);
  }

  lemma StreamsWarn(f: Fields)
    ensures SanitizeStreams(f).1 == [] <==> CleanList(f, StreamType, STREAMS) && QuietSettingsIn(f)
  {
    ListWarns(f, StreamType, STREAMS);
    ListCleaned(f, StreamType, STREAMS);
    SettingsInWarn(SanitizeList(f, StreamType, STREAMS).0);
  }

  lemma LeafWarns(tag: Text, f: Fields)
    ensures SanitizeLeaf(tag, f).1 == [] <==> QuietLeaf(tag, f)
  {
    if tag == HeatmapChart || tag == ShaderHeatmap {
      HeatmapWarns(f);
    } else if tag == KlineChart {
      KlineChartWarns(f);
    } else if tag == GexChart {
      SettingsInWarn(f);
    } else if tag == ComparisonChart || tag == TimeAndSales || tag == Ladder {
      StreamsWarn(f);
    }
  }

  lemma LeafPaneWarns(f: Fields)
    requires |f| == 1 && f.Keys <= LEAVES
    ensures SanitizeLeafPane(f).warnings == [] <==> QuietPane(Obj(f))
  {
    TagIsKey(f);
    var tag := OnlyKey(f);
    if f[tag].Obj? { LeafWarns(tag, f[tag].fields); }
  }

  /** A pane tree is repaired without a warning exactly when it is a quiet one. */
  lemma {:induction false} PaneWarns(v: Json)
    ensures SanitizePane(v).warnings == [] <==> QuietPane(v)
    decreases v, 1
  {
    if v.Obj? && |v.fields| == 1 {
      if Split in v.fields {
        if v.fields[Split].Obj? {
          ChildWarns(v.fields[Split], A);
          ChildWarns(v.fields[Split], B);
        }
      } else if v.fields.Keys <= LEAVES {
        LeafPaneWarns(v.fields);
      }
    }
  }

  lemma {:induction false} ChildWarns(split: Json, key: Text)
    requires split.Obj?
    ensures Child(split, key).warnings == [] <==> (key in split.fields ==> QuietPane(split.fields[key]))
    decreases split, 0
  {
    if key in split.fields { PaneWarns(split.fields[key]); }
  }

  lemma PopoutsWarn(items: seq<Json>)
    ensures RepairEach(items, KeepPopout).1 == [] <==> forall e :: e in items ==> QuietPopout(e)
  {
    EachWarns(items, KeepPopout);
    forall e | e in items ensures KeepPopout(e).1 == [] <==> QuietPopout(e) {
      if e.Arr? && |e.items| == 2 { PaneWarns(e.items[0]); }
    }
  }

  lemma DashboardWarns(v: Json)
    ensures SanitizeDashboard(v).warnings == [] <==> QuietDashboard(v)
  {
    if v.Obj? {
      DefaultPaneQuiet();
      PaneWarns(Entry(v.fields, PaneKey, DEFAULT_PANE));
      if Popout in v.fields && v.fields[Popout].Arr? { PopoutsWarn(v.fields[Popout].items); }
    }
  }

  lemma LayoutWarns(v: Json)
    ensures SanitizeLayout(v).warnings == [] <==> QuietLayout(v)
  {
    if v.Obj? {
      DashboardWarns(Entry(v.fields, DashboardKey, Obj(map[])));
    }
  }

  lemma LayoutManagerWarns(v: Json)
    ensures SanitizeLayoutManager(v).warnings == [] <==> QuietLayoutManager(v)
  {
    if v.Obj? && Layouts in v.fields && v.fields[Layouts].Arr? {
      EachWarns(v.fields[Layouts].items, KeepLayout);
      forall e | e in v.fields[Layouts].items ensures KeepLayout(e).1 == [] <==> QuietLayout(e) {
        LayoutWarns(e);
      }
    }
  }

  /** The whole repair gives no warning exactly when the state is a quiet one. */
  lemma StateWarns(v: Json)
    ensures MigrateSavedState(v).warnings == [] <==> QuietState(v)
  {
    if v.Obj? && LayoutManager in v.fields { LayoutManagerWarns(v.fields[LayoutManager]); }
  }

  lemma DefaultPaneQuiet()
    ensures QuietPane(DEFAULT_PANE)
  {
    assert DEFAULT_PANE.fields.Keys == {Starter};
  }

  const WIDE_SPLIT := Obj(map[Split := Obj(map[
    Axis := Str(Vertical), Ratio := Num(Whole(7)), A := DEFAULT_PANE, B := DEFAULT_PANE])])

  /** A change without a warning: a ratio of seven becomes 0.95. */
  lemma SilentChange()
    ensures SanitizePane(WIDE_SPLIT).warnings == [] && SanitizePane(WIDE_SPLIT).value != WIDE_SPLIT
  {
    DefaultPaneQuiet();
    assert WIDE_SPLIT.fields.Keys == {Split};
    PaneWarns(WIDE_SPLIT);
    PaneCleaned(WIDE_SPLIT);
  }

  // ------------------------------------------------------- and how often

  ghost function Total(items: seq<Json>, count: Json -> nat): nat {
    if items == [] then 0 else Total(items[..|items| - 1], count) + count(items[|items| - 1])
  }

  ghost function One(defect: bool): nat { if defect then 1 else 0 }

  ghost function Unknown(allowed: set<Text>): Json -> nat { e => One(!IsKnownTaggedEnum(e, allowed)) }

  /** A list that is no array counts once, an array once for every unknown entry. */
  ghost function ListDefects(f: Fields, key: Text, allowed: set<Text>): nat {
    if key !in f then 0 else if !f[key].Arr? then 1 else Total(f[key].items, Unknown(allowed))
  }

  ghost function SettingsDefects(f: Fields): nat {
    if Settings !in f then 0
    else if !f[Settings].Obj? then 1
    else
      var v := f[Settings].fields;
      if VisualConfig in v && v[VisualConfig] != Null && !IsKnownTaggedEnum(v[VisualConfig], VISUALS) then 1
      else One(HasKlineConfig(v) && !QuietLevels(v[VisualConfig].fields[Kline].fields))
  }

  ghost function KindDefects(f: Fields): nat { One(Kind in f && !CleanKind(f[Kind])) }

  ghost function LeafDefects(tag: Text, f: Fields): nat {
    if tag == HeatmapChart || tag == ShaderHeatmap then
      ListDefects(f, Indicators, HEATMAP_INDICATORS) + ListDefects(f, StreamType, STREAMS) + SettingsDefects(f)
    else if tag == KlineChart then
      ListDefects(f, Indicators, KLINE_INDICATORS) + ListDefects(f, StreamType, STREAMS)
      + KindDefects(f) + SettingsDefects(f)
    else if tag == GexChart then SettingsDefects(f)
    else if tag == ComparisonChart || tag == TimeAndSales || tag == Ladder then
      ListDefects(f, StreamType, STREAMS) + SettingsDefects(f)
    else 0
  }

  /** A node that is replaced counts once, a split with an illegal axis once and whatever its children count. */
  ghost function PaneDefects(v: Json): nat
    decreases v
  {
    if !v.Obj? || |v.fields| != 1 then 1
    else if Split in v.fields then
      if !v.fields[Split].Obj? then 1
      else
        var s := v.fields[Split].fields;
        One(!AxisOk(s)) + (if A in s then PaneDefects(s[A]) else 0) + (if B in s then PaneDefects(s[B]) else 0)
    else if v.fields.Keys <= LEAVES then
      var tag := OnlyKey(v.fields);
      if tag in v.fields && v.fields[tag].Obj? then LeafDefects(tag, v.fields[tag].fields) else 0
    else 1
  }

  ghost function PopoutDefects(v: Json): nat {
    if v.Arr? && |v.items| == 2 then PaneDefects(v.items[0]) else 1
  }

  ghost function DashboardDefects(v: Json): nat {
    if !v.Obj? then 1
    else
      (if PaneKey in v.fields then PaneDefects(v.fields[PaneKey]) else 0)
      + if Popout in v.fields && v.fields[Popout].Arr? then Total(v.fields[Popout].items, PopoutDefects) else 0
  }

  ghost function LayoutDefects(v: Json): nat {
    if !v.Obj? then 1 else if DashboardKey in v.fields then DashboardDefects(v.fields[DashboardKey]) else 0
  }

  ghost function ManagerDefects(v: Json): nat {
    if v.Obj? && Layouts in v.fields && v.fields[Layouts].Arr? then Total(v.fields[Layouts].items, LayoutDefects) else 1
  }

  ghost function StateDefects(v: Json): nat {
    if !v.Obj? then 1 else if LayoutManager in v.fields then ManagerDefects(v.fields[LayoutManager]) else 0
  }

  lemma {:induction false} EachCounts(items: seq<Json>, keep: Json -> (seq<Json>, seq<Warning>), count: Json -> nat)
    requires forall e :: e in items ==> |keep(e).1| == count(e)
    ensures |RepairEach(items, keep).1| == Total(items, count)
  {
    if items != [] {
      var front := items[..|items| - 1];
      assert forall e :: e in front ==> e in items;
      EachCounts(front, keep, count);
      assert items[|items| - 1] in items;
    }
  }

  lemma ListCounts(f: Fields, key: Text, allowed: set<Text>)
    ensures |SanitizeList(f, key, allowed).1| == ListDefects(f, key, allowed)
  {
    if key in f && f[key].Arr? { EachCounts(f[key].items, e => KeepEntry(e, allowed), Unknown(allowed)); }
  }

  lemma SettingsCount(f: Fields)
    ensures |SettleSettings(f).1| == SettingsDefects(f)
  {
    if Settings in f && f[Settings].Obj? {
      var v := f[Settings].fields;
      if VisualConfig in v && v[VisualConfig] != Null && !IsKnownTaggedEnum(v[VisualConfig], VISUALS) {
        assert DropVisualConfig(v) == (v - {VisualConfig}, [VisualConfigUnknown]);
      } else {
        assert DropVisualConfig(v) == (v, []);
      }
    }
  }

  lemma LeafCounts(tag: Text, f: Fields)
    ensures |SanitizeLeaf(tag, f).1| == LeafDefects(tag, f)
  {
    if tag == HeatmapChart || tag == ShaderHeatmap {
      ListsCount(f, HEATMAP_INDICATORS);
    } else if tag == KlineChart {
      ListsCount(f, KLINE_INDICATORS);
      var f2 := SanitizeList(SanitizeList(f, Indicators, KLINE_INDICATORS).0, StreamType, STREAMS).0;
      SettingsCount(SettleKind(f2).0);
    } else if tag == GexChart {
      SettingsCount(f);
    } else if tag == ComparisonChart || tag == TimeAndSales || tag == Ladder {
      ListCounts(f, StreamType, STREAMS);
      ListCleaned(f, StreamType, STREAMS);
      SettingsCount(SanitizeList(f, StreamType, STREAMS).0);
    }
  }

  lemma ListsCount(f: Fields, indicators: set<Text>)
    ensures var f1 := SanitizeList(f, Indicators, indicators).0;
      var f2 := SanitizeList(f1, StreamType, STREAMS).0;
      && |SanitizeList(f, Indicators, indicators).1| == ListDefects(f, Indicators, indicators)
      && |SanitizeList(f1, StreamType, STREAMS).1| == ListDefects(f, StreamType, STREAMS)
      && |SettleSettings(f2).1| == SettingsDefects(f)
      && (Kind in f2 <==> Kind in f) && (Kind in f ==> f2[Kind] == f[Kind])
      && (Settings in f2 <==> Settings in f) && (Settings in f ==> f2[Settings] == f[Settings])
  {
    var f1 := SanitizeList(f, Indicators, indicators).0;
    ListCounts(f, Indicators, indicators);
    ListCleaned(f, Indicators, indicators);
    ListCounts(f1, StreamType, STREAMS);
    ListCleaned(f1, StreamType, STREAMS);
    SettingsCount(SanitizeList(f1, StreamType, STREAMS).0);
  }

  /** There is one warning for every defect of a pane tree. */
  lemma {:induction false} PaneCounts(v: Json)
    ensures |SanitizePane(v).warnings| == PaneDefects(v)
    decreases v, 1
  {
    if v.Obj? && |v.fields| == 1 {
      if Split in v.fields {
        if v.fields[Split].Obj? {
          ChildCounts(v.fields[Split], A);
          ChildCounts(v.fields[Split], B);
        }
      } else if v.fields.Keys <= LEAVES {
        TagIsKey(v.fields);
        var tag := OnlyKey(v.fields);
        if v.fields[tag].Obj? { LeafCounts(tag, v.fields[tag].fields); }
      }
    }
  }

  lemma {:induction false} ChildCounts(split: Json, key: Text)
    requires split.Obj?
    ensures |Child(split, key).warnings| == if key in split.fields then PaneDefects(split.fields[key]) else 0
    decreases split, 0
  {
    if key in split.fields { PaneCounts(split.fields[key]); }
  }

  lemma DashboardCounts(v: Json)
    ensures |SanitizeDashboard(v).warnings| == DashboardDefects(v)
  {
    if v.Obj? {
      DefaultPaneClean();
      PaneCleaned(DEFAULT_PANE);
      PaneCounts(Entry(v.fields, PaneKey, DEFAULT_PANE));
      if Popout in v.fields && v.fields[Popout].Arr? {
        forall e | e in v.fields[Popout].items ensures |KeepPopout(e).1| == PopoutDefects(e) {
          if e.Arr? && |e.items| == 2 { PaneCounts(e.items[0]); }
        }
        EachCounts(v.fields[Popout].items, KeepPopout, PopoutDefects);
      }
    }
  }

  lemma LayoutCounts(v: Json)
    ensures |SanitizeLayout(v).warnings| == LayoutDefects(v)
  {
    if v.Obj? { DashboardCounts(Entry(v.fields, DashboardKey, Obj(map[]))); }
  }

  /** The whole repair gives one warning for every defect, and for nothing else. */
  lemma StateCounts(v: Json)
    ensures |MigrateSavedState(v).warnings| == StateDefects(v)
  {
    if v.Obj? && LayoutManager in v.fields {
      var manager := v.fields[LayoutManager];
      if manager.Obj? && Layouts in manager.fields && manager.fields[Layouts].Arr? {
        forall e | e in manager.fields[Layouts].items ensures |KeepLayout(e).1| == LayoutDefects(e) { LayoutCounts(e); }
        EachCounts(manager.fields[Layouts].items, KeepLayout, LayoutDefects);
      }
    }
  }
}

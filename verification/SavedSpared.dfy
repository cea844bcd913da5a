// What the repair of a saved state spares. The relations compare a value
// before and after, from the root down to every leaf, and name no part of the
// repair itself.

module SavedSpared {
  import opened Wrappers
  import opened UnixTime
  import opened SavedJson
  import opened SavedJsonTheorems

  const STARTER_PANE := Obj(map[Starter := Obj(map[LinkGroup := Null])])
  const EMPTY_DASHBOARD := Obj(map[PaneKey := STARTER_PANE, Popout := Arr([])])
  const NEW_LAYOUT := Obj(map[Name := Str(Default), DashboardKey := EMPTY_DASHBOARD])
  const NEW_MANAGER := Obj(map[Layouts := Arr([NEW_LAYOUT]), ActiveLayout := Str(Default)])

  /** Apart from the named keys the two objects agree. */
  ghost predicate AgreeBut(f: Fields, g: Fields, named: set<Text>) {
    && (forall k :: k !in named ==> (k in f <==> k in g))
    && forall k :: k in f && k !in named ==> k in g && g[k] == f[k]
  }

  /** A tag of the list: alone, or as the one key of an object. */
  ghost predicate Known(v: Json, allowed: set<Text>) {
    (v.Str? && v.text in allowed) || (v.Obj? && exists k :: k in allowed && v.fields.Keys == {k})
  }

  /** The known entries and no others, in their order. */
  ghost predicate KnownOnly(items: seq<Json>, kept: seq<Json>, allowed: set<Text>) {
    if items == [] then kept == []
    else
      var front, e := items[..|items| - 1], items[|items| - 1];
      if Known(e, allowed) then kept != [] && kept[|kept| - 1] == e && KnownOnly(front, kept[..|kept| - 1], allowed)
      else KnownOnly(front, kept, allowed)
  }

  ghost predicate SparedList(f: Fields, g: Fields, key: Text, allowed: set<Text>) {
    if key !in f then key !in g
    else
      key in g && g[key].Arr?
      && if f[key].Arr? then KnownOnly(f[key].items, g[key].items, allowed) else g[key].items == []
  }

  ghost predicate SparedKind(f: Fields, g: Fields) {
    && Kind in g
    && g[Kind] ==
         if Kind in f && (f[Kind] == Str(Candles) || Known(f[Kind], {Footprint})) then f[Kind] else Str(Candles)
  }

  /**
   * Legacy levels leave their old place, for the new one when there is an object to hold
   * them, where newer ones win.
   */
  ghost predicate SparedLevels(f: Fields, g: Fields) {
    if GexLevelsKey !in f then g == f
    else
      && GexLevelsKey !in g && AgreeBut(f, g, {GexLevelsKey, IndicatorConfigs})
      && IndicatorConfigs in g
      && if IndicatorConfigs in f && !f[IndicatorConfigs].Obj? then g[IndicatorConfigs] == f[IndicatorConfigs]
         else
           && g[IndicatorConfigs].Obj?
           && var newer := if IndicatorConfigs in f then f[IndicatorConfigs].fields else map[];
              g[IndicatorConfigs].fields == map[GexLevelsKey := f[GexLevelsKey]] + newer
  }

  ghost predicate KlineObject(v: Json) {
    v.Obj? && Kline in v.fields && v.fields[Kline].Obj?
  }

  /** A known visual configuration stays, but for its legacy levels; an unknown one goes. */
  ghost predicate SparedVisual(f: Fields, g: Fields) {
    if VisualConfig !in f then VisualConfig !in g
    else if f[VisualConfig] == Null then VisualConfig in g && g[VisualConfig] == Null
    else if !Known(f[VisualConfig], {Heatmap, TimeAndSales, Kline, Ladder, Comparison, Gex}) then VisualConfig !in g
    else
      && VisualConfig in g
      && if KlineObject(f[VisualConfig])
         then
           && KlineObject(g[VisualConfig]) && g[VisualConfig].fields.Keys == {Kline}
           && SparedLevels(f[VisualConfig].fields[Kline].fields, g[VisualConfig].fields[Kline].fields)
         else g[VisualConfig] == f[VisualConfig]
  }

  ghost predicate SparedSettings(v: Json, w: Json) {
    if !v.Obj? then w == Obj(map[])
    else w.Obj? && AgreeBut(v.fields, w.fields, {VisualConfig}) && SparedVisual(v.fields, w.fields)
  }

  ghost predicate SparedSettingsIn(f: Fields, g: Fields) {
    Settings in g && SparedSettings(if Settings in f then f[Settings] else Obj(map[]), g[Settings])
  }

  /** The contents of a leaf of a known kind. */
  ghost predicate SparedLeaf(tag: Text, f: Fields, g: Fields) {
    if tag == HeatmapChart || tag == ShaderHeatmap then
      && AgreeBut(f, g, {Indicators, StreamType, Settings}) && SparedList(f, g, Indicators, {Volume})
      && SparedList(f, g, StreamType, {Kline, Depth, Trades, DepthAndTrades}) && SparedSettingsIn(f, g)
    else if tag == KlineChart then
      && AgreeBut(f, g, {Indicators, StreamType, Kind, Settings})
      && SparedList(f, g, Indicators,
                    {Volume, BarAnalysis, CumulativeDelta, OpenInterest, VolumeBubbles, SessionVolumeProfile, Vwap,
                      GexLevels})
      && SparedList(f, g, StreamType, {Kline, Depth, Trades, DepthAndTrades})
      && SparedKind(f, g) && SparedSettingsIn(f, g)
    else if tag == GexChart then AgreeBut(f, g, {Settings}) && SparedSettingsIn(f, g)
    else if tag == ComparisonChart || tag == TimeAndSales || tag == Ladder then
      && AgreeBut(f, g, {StreamType, Settings})
      && SparedList(f, g, StreamType, {Kline, Depth, Trades, DepthAndTrades}) && SparedSettingsIn(f, g)
    else g == f
  }

  ghost predicate LeafKind(tag: Text) {
    tag in {Starter, HeatmapChart, ShaderHeatmap, KlineChart, GexChart, ComparisonChart, TimeAndSales, Ladder}
  }

  /** The ratio as a number, moved to the nearer bound when out of range, and even when it is none. */
  ghost predicate SparedRatio(f: Fields, g: Fields) {
    && Ratio in g && g[Ratio].Num? && g[Ratio].number.Float?
    && var x := g[Ratio].number.x;
       if Ratio in f && f[Ratio].Num?
       then
         var was := if f[Ratio].number.Whole? then f[Ratio].number.n as real else f[Ratio].number.x;
         x == if was < 0.05 then 0.05 else if was > 0.95 then 0.95 else was
       else x == 0.5
  }

  ghost predicate SparedAxis(f: Fields, g: Fields) {
    && Axis in g
    && g[Axis] ==
         if Axis in f && (f[Axis] == Str(Horizontal) || f[Axis] == Str(Vertical)) then f[Axis] else Str(Horizontal)
  }

  /** Splits stay splits, leaves of a known kind stay such leaves; anything else becomes a starter pane. */
  ghost predicate SparedPane(v: Json, w: Json)
    decreases v
  {
    if !v.Obj? || |v.fields| != 1 then w == STARTER_PANE
    else if Split in v.fields then
      if !v.fields[Split].Obj? then w == STARTER_PANE
      else
        && w.Obj? && w.fields.Keys == {Split} && w.fields[Split].Obj?
        && var f, g := v.fields[Split].fields, w.fields[Split].fields;
           && AgreeBut(f, g, {Axis, Ratio, A, B}) && SparedAxis(f, g) && SparedRatio(f, g)
           && A in g && (if A in f then SparedPane(f[A], g[A]) else g[A] == STARTER_PANE)
           && B in g && (if B in f then SparedPane(f[B], g[B]) else g[B] == STARTER_PANE)
    else if exists tag :: LeafKind(tag) && tag in v.fields then
      && w.Obj? && w.fields.Keys == v.fields.Keys
      && forall tag :: tag in v.fields ==>
           if v.fields[tag].Obj? then w.fields[tag].Obj? && SparedLeaf(tag, v.fields[tag].fields, w.fields[tag].fields)
           else w.fields[tag] == v.fields[tag]
    else w == STARTER_PANE
  }

  ghost predicate Pair(v: Json) { v.Arr? && |v.items| == 2 }

  /** The pairs stay, in their order, each with its pane spared and its window as it was; anything else goes. */
  ghost predicate SparedPopouts(items: seq<Json>, kept: seq<Json>) {
    if items == [] then kept == []
    else
      var front, e := items[..|items| - 1], items[|items| - 1];
      if Pair(e) then
        && kept != [] && Pair(kept[|kept| - 1])
        && SparedPane(e.items[0], kept[|kept| - 1].items[0]) && kept[|kept| - 1].items[1] == e.items[1]
        && SparedPopouts(front, kept[..|kept| - 1])
      else SparedPopouts(front, kept)
  }

  ghost predicate SparedDashboard(v: Json, w: Json) {
    if !v.Obj? then w == EMPTY_DASHBOARD
    else
      && w.Obj? && AgreeBut(v.fields, w.fields, {PaneKey, Popout})
      && PaneKey in w.fields
      && (if PaneKey in v.fields then SparedPane(v.fields[PaneKey], w.fields[PaneKey])
          else w.fields[PaneKey] == STARTER_PANE)
      && Popout in w.fields && w.fields[Popout].Arr?
      && (if Popout in v.fields && v.fields[Popout].Arr?
          then SparedPopouts(v.fields[Popout].items, w.fields[Popout].items)
          else w.fields[Popout].items == [])
  }

  ghost predicate SparedLayout(v: Json, w: Json) {
    if !v.Obj? then w == NEW_LAYOUT
    else
      && w.Obj? && AgreeBut(v.fields, w.fields, {Name, DashboardKey})
      && Name in w.fields
      && w.fields[Name] == (if Name in v.fields && v.fields[Name].Str? then v.fields[Name] else Str(Recovered))
      && DashboardKey in w.fields
      && (if DashboardKey in v.fields then SparedDashboard(v.fields[DashboardKey], w.fields[DashboardKey])
          else w.fields[DashboardKey] == EMPTY_DASHBOARD)
  }

  /** Layouts keep their number and their order. */
  ghost predicate SparedManager(v: Json, w: Json) {
    if !v.Obj? then w == NEW_MANAGER
    else
      && w.Obj? && AgreeBut(v.fields, w.fields, {Layouts})
      && Layouts in w.fields && w.fields[Layouts].Arr?
      && var after := w.fields[Layouts].items;
         if Layouts in v.fields && v.fields[Layouts].Arr?
         then
           && |after| == |v.fields[Layouts].items|
           && forall i :: 0 <= i < |after| ==> SparedLayout(v.fields[Layouts].items[i], after[i])
         else after == [NEW_LAYOUT]
  }

  ghost predicate SparedState(v: Json, w: Json) {
    && w.Obj? && SavedStateVersion in w.fields && w.fields[SavedStateVersion] == Num(Whole(1))
    && if !v.Obj? then w.fields.Keys == {SavedStateVersion}
       else
         && AgreeBut(v.fields, w.fields, {SavedStateVersion, LayoutManager})
         && (LayoutManager in v.fields <==> LayoutManager in w.fields)
         && (LayoutManager in v.fields ==> SparedManager(v.fields[LayoutManager], w.fields[LayoutManager]))
  }

  // ------------------------------------------------- and that it does so

  lemma KnownIsKnown(v: Json, allowed: set<Text>)
    ensures IsKnownTaggedEnum(v, allowed) <==> Known(v, allowed)
  {
    if v.Obj? && |v.fields| == 1 && v.fields.Keys <= allowed {
      var k :| k in v.fields;
      OneKey(v.fields, k);
      assert k in allowed;
    }
    if v.Obj? && Known(v, allowed) {
      var k :| k in allowed && v.fields.Keys == {k};
      assert |v.fields| == |v.fields.Keys| == 1;
    }
  }

  lemma {:induction false} KeptAreKnown(items: seq<Json>, allowed: set<Text>)
    ensures KnownOnly(items, KeepKnown(items, allowed).0, allowed)
  {
    if items != [] {
      var front, e := items[..|items| - 1], items[|items| - 1];
      KeptAreKnown(front, allowed);
      KnownIsKnown(e, allowed);
      assert KeepKnown(front, allowed) == RepairEach(front, x => KeepEntry(x, allowed));
      var kept := KeepKnown(items, allowed).0;
      if Known(e, allowed) {
        assert kept == KeepKnown(front, allowed).0 + [e];
        assert kept[..|kept| - 1] == KeepKnown(front, allowed).0;
      } else {
        assert kept == KeepKnown(front, allowed).0;
      }
    }
  }

  lemma ListSpared(f: Fields, key: Text, allowed: set<Text>)
    ensures SparedList(f, SanitizeList(f, key, allowed).0, key, allowed)
    ensures AgreeBut(f, SanitizeList(f, key, allowed).0, {key})
  {
    if key in f && f[key].Arr? { KeptAreKnown(f[key].items, allowed); }
  }

  lemma KindSpared(f: Fields)
    ensures SparedKind(f, SettleKind(f).0) && AgreeBut(f, SettleKind(f).0, {Kind})
  {
    if Kind in f { KnownIsKnown(f[Kind], KINDS); }
  }

  lemma LevelsSpared(f: Fields)
    ensures SparedLevels(f, MoveGexLevels(f).0)
  {
    if GexLevelsKey in f { LegacyLevelsKept(f); }
  }

  lemma SettingsSpared(v: Json)
    ensures SparedSettings(v, SanitizeSettings(v).value)
  {
    if v.Obj? && VisualConfig in v.fields && v.fields[VisualConfig] != Null {
      var config := v.fields[VisualConfig];
      KnownIsKnown(config, VISUALS);
      if IsKnownTaggedEnum(config, VISUALS) && KlineObject(config) {
        OneKey(config.fields, Kline);
        LevelsSpared(config.fields[Kline].fields);
        var kline := MoveGexLevels(config.fields[Kline].fields).0;
        assert config.fields[Kline := Obj(kline)].Keys == {Kline};
      }
    }
  }

  lemma SettingsInSpared(f: Fields)
    ensures SparedSettingsIn(f, SettleSettings(f).0) && AgreeBut(f, SettleSettings(f).0, {Settings})
  {
    SettingsSpared(Entry(f, Settings, Obj(map[])));
  }

  /** Two repairs of different keys. */
  lemma AgreeTwice(f: Fields, g: Fields, h: Fields, a: set<Text>, b: set<Text>)
    requires AgreeBut(f, g, a) && AgreeBut(g, h, b)
    ensures AgreeBut(f, h, a + b)
  {
  }

  lemma ListCarries(f: Fields, g: Fields, h: Fields, key: Text, allowed: set<Text>, named: set<Text>)
    requires AgreeBut(g, h, named) && key !in named && SparedList(f, g, key, allowed)
    ensures SparedList(f, h, key, allowed)
  {
  }

  lemma HeatmapSpared(f: Fields)
    ensures SparedLeaf(HeatmapChart, f, SanitizeHeatmap(f).0)
  {
    var f1 := SanitizeList(f, Indicators, HEATMAP_INDICATORS).0;
    var f2 := SanitizeList(f1, StreamType, STREAMS).0;
    var f3 := SettleSettings(f2).0;
    ListSpared(f, Indicators, HEATMAP_INDICATORS);
    ListSpared(f1, StreamType, STREAMS);
    SettingsInSpared(f2);
    AgreeTwice(f, f1, f2, {Indicators}, {StreamType});
    AgreeTwice(f, f2, f3, {Indicators} + {StreamType}, {Settings});
    assert {Indicators} + {StreamType} + {Settings} == {Indicators, StreamType, Settings};
    ListCarries(f, f1, f2, Indicators, HEATMAP_INDICATORS, {StreamType});
    ListCarries(f, f2, f3, Indicators, HEATMAP_INDICATORS, {Settings});
    assert SparedList(f, f2, StreamType, STREAMS);
    ListCarries(f, f2, f3, StreamType, STREAMS, {Settings});
  }

  lemma KlineChartSpared(f: Fields)
    ensures SparedLeaf(KlineChart, f, SanitizeKlineChart(f).0)
  {
    var f1 := SanitizeList(f, Indicators, KLINE_INDICATORS).0;
    var f2 := SanitizeList(f1, StreamType, STREAMS).0;
    var f3 := SettleKind(f2).0;
    var f4 := SettleSettings(f3).0;
    ListSpared(f, Indicators, KLINE_INDICATORS);
    ListSpared(f1, StreamType, STREAMS);
    KindSpared(f2);
    SettingsInSpared(f3);
    AgreeTwice(f, f1, f2, {Indicators}, {StreamType});
    AgreeTwice(f, f2, f3, {Indicators} + {StreamType}, {Kind});
    AgreeTwice(f, f3, f4, {Indicators} + {StreamType} + {Kind}, {Settings});
    assert {Indicators} + {StreamType} + {Kind} + {Settings} == {Indicators, StreamType, Kind, Settings};
    ListCarries(f, f1, f2, Indicators, KLINE_INDICATORS, {StreamType});
    ListCarries(f, f2, f3, Indicators, KLINE_INDICATORS, {Kind});
    ListCarries(f, f3, f4, Indicators, KLINE_INDICATORS, {Settings});
    assert SparedList(f, f2, StreamType, STREAMS);
    ListCarries(f, f2, f3, StreamType, STREAMS, {Kind});
    ListCarries(f, f3, f4, StreamType, STREAMS, {Settings});
    assert SparedKind(f, f3);
  }

  lemma StreamsSpared(f: Fields)
    ensures SparedLeaf(Ladder, f, SanitizeStreams(f).0)
  {
    var f1 := SanitizeList(f, StreamType, STREAMS).0;
    var f2 := SettleSettings(f1).0;
    ListSpared(f, StreamType, STREAMS);
    SettingsInSpared(f1);
    AgreeTwice(f, f1, f2, {StreamType}, {Settings});
    assert {StreamType} + {Settings} == {StreamType, Settings};
    ListCarries(f, f1, f2, StreamType, STREAMS, {Settings});
  }

  lemma LeafSpared(tag: Text, f: Fields)
    ensures SparedLeaf(tag, f, SanitizeLeaf(tag, f).0)
  {
    if tag == HeatmapChart || tag == ShaderHeatmap {
      HeatmapSpared(f);
    } else if tag == KlineChart {
      KlineChartSpared(f);
    } else if tag == GexChart {
      SettingsInSpared(f);
    } else if tag == ComparisonChart || tag == TimeAndSales || tag == Ladder {
      StreamsSpared(f);
    }
  }

  lemma LeafPaneSpared(f: Fields)
    requires |f| == 1 && f.Keys <= LEAVES
    ensures SparedPane(Obj(f), SanitizeLeafPane(f).value)
  {
    TagIsKey(f);
    var tag := OnlyKey(f);
    assert LeafKind(tag) && tag in f;
    if f[tag].Obj? { LeafSpared(tag, f[tag].fields); }
  }

  lemma SplitSpared(s: Fields, a: Repaired, b: Repaired)
    ensures var g := JoinSplit(s, a, b).value.fields[Split].fields;
      && AgreeBut(s, g, {Axis, Ratio, A, B}) && SparedAxis(s, g) && SparedRatio(s, g)
      && A in g && g[A] == a.value && B in g && g[B] == b.value
  {
  }

  /** Whatever the pane tree, the repair spares it, node by node. */
  lemma {:induction false} PaneSpared(v: Json)
    ensures SparedPane(v, SanitizePane(v).value)
    decreases v, 1
  {
    if v.Obj? && |v.fields| == 1 {
      if Split in v.fields {
        if v.fields[Split].Obj? {
          var node := v.fields[Split];
          ChildSpared(node, A);
          ChildSpared(node, B);
          SplitSpared(node.fields, Child(node, A), Child(node, B));
          assert SanitizePane(v) == JoinSplit(node.fields, Child(node, A), Child(node, B));
          assert SanitizePane(v).value.fields.Keys == {Split};
        }
      } else if v.fields.Keys <= LEAVES {
        LeafPaneSpared(v.fields);
      } else {
        NoLeafKind(v.fields);
      }
    }
  }

  lemma NoLeafKind(f: Fields)
    requires |f| == 1 && !(f.Keys <= LEAVES)
    ensures forall tag :: LeafKind(tag) ==> tag !in f
  {
    var k :| k in f && k !in LEAVES;
    OneKey(f, k);
  }

  lemma {:induction false} ChildSpared(split: Json, key: Text)
    requires split.Obj?
    ensures if key in split.fields then SparedPane(split.fields[key], Child(split, key).value)
            else Child(split, key).value == STARTER_PANE
    decreases split, 0
  {
    if key in split.fields { PaneSpared(split.fields[key]); }
  }

  lemma {:induction false} PopoutsSpared(items: seq<Json>)
    ensures SparedPopouts(items, RepairEach(items, KeepPopout).0)
  {
    if items != [] {
      var front, e := items[..|items| - 1], items[|items| - 1];
      PopoutsSpared(front);
      var before, kept := RepairEach(front, KeepPopout).0, RepairEach(items, KeepPopout).0;
      if Pair(e) {
        PaneSpared(e.items[0]);
        var one := KeepPopout(e).0;
        assert kept == before + one && |one| == 1;
        assert kept[..|kept| - 1] == before;
      } else {
        assert kept == before;
      }
    }
  }

  lemma DashboardSpared(v: Json)
    ensures SparedDashboard(v, SanitizeDashboard(v).value)
  {
    if v.Obj? {
      StarterStays();
      PaneSpared(Entry(v.fields, PaneKey, DEFAULT_PANE));
      if Popout in v.fields && v.fields[Popout].Arr? { PopoutsSpared(v.fields[Popout].items); }
    }
  }

  lemma StarterStays()
    ensures SanitizePane(STARTER_PANE).value == STARTER_PANE
  {
    DefaultPaneClean();
    PaneCleaned(STARTER_PANE);
  }

  lemma LayoutSpared(v: Json)
    ensures SparedLayout(v, SanitizeLayout(v).value)
  {
    if v.Obj? {
      var dashboard := Entry(v.fields, DashboardKey, Obj(map[]));
      DashboardSpared(dashboard);
      if DashboardKey !in v.fields { NewDashboard(); }
    }
  }

  lemma NewDashboard()
    ensures SanitizeDashboard(Obj(map[])).value == EMPTY_DASHBOARD
  {
    StarterStays();
    assert map[][PaneKey := STARTER_PANE][Popout := Arr([])] == EMPTY_DASHBOARD.fields;
  }

  lemma {:induction false} LayoutsSpared(items: seq<Json>)
    ensures var after := RepairEach(items, KeepLayout).0;
      |after| == |items| && forall i :: 0 <= i < |after| ==> SparedLayout(items[i], after[i])
  {
    if items != [] {
      LayoutsSpared(items[..|items| - 1]);
      LayoutSpared(items[|items| - 1]);
    }
  }

  lemma ManagerSpared(v: Json)
    ensures SparedManager(v, SanitizeLayoutManager(v).value)
  {
    if v.Obj? && Layouts in v.fields && v.fields[Layouts].Arr? { LayoutsSpared(v.fields[Layouts].items); }
  }

  /** For any JSON value, what comes out is the value with exactly the repairs its defects call for. */
  lemma StateSpared(v: Json)
    ensures SparedState(v, MigrateSavedState(v).value)
  {
    if v.Obj? && LayoutManager in v.fields { ManagerSpared(v.fields[LayoutManager]); }
  }
}

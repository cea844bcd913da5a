// The repair of a saved state as the program runs it: one list of warnings,
// values rewritten where they stand.

module SavedStateRepair {
  import opened Wrappers
  import opened UnixTime
  import opened SavedJson
  import opened SavedJsonTheorems
  import opened SavedWarnings
  import opened SavedSpared
  import J = SavedJson

  class Repair {
    var warnings: seq<Warning>

    constructor ()
      ensures warnings == []
    {
      warnings := [];
    }

    method Warn(w: Warning)
      modifies this
      ensures warnings == old(warnings) + [w]
    {
      warnings := warnings + [w];
    }

    /** The `retain` over a list of tagged enums. */
    method RetainKnown(items: seq<Json>, allowed: set<Text>) returns (kept: seq<Json>)
      modifies this
      ensures kept == KeepKnown(items, allowed).0 && warnings == old(warnings) + KeepKnown(items, allowed).1
    {
      kept := [];
      for i := 0 to |items|
        invariant kept == KeepKnown(items[..i], allowed).0
        invariant warnings == old(warnings) + KeepKnown(items[..i], allowed).1
      {
        EachSnoc(items, e => KeepEntry(e, allowed), i);
        if IsKnownTaggedEnum(items[i], allowed) {
          kept := kept + [items[i]];
        } else {
          Warn(EntryUnknown);
        }
      }
      assert items[..|items|] == items;
    }

    method SanitizeVecTaggedEnum(f: Fields, key: Text, allowed: set<Text>) returns (r: Fields)
      modifies this
      ensures r == SanitizeList(f, key, allowed).0 && warnings == old(warnings) + SanitizeList(f, key, allowed).1
      ensures SparedList(f, r, key, allowed) && AgreeBut(f, r, {key})
    {
      ListSpared(f, key, allowed);
      r := f;
      if key !in f { return; }
      if !f[key].Arr? {
        r := f[key := Arr([])];
        Warn(ListInvalid);
        return;
      }
      var kept := RetainKnown(f[key].items, allowed);
      r := f[key := Arr(kept)];
    }

    method SanitizeKlineKind(v: Json) returns (r: Json)
      modifies this
      ensures r == SanitizeKind(v).value && warnings == old(warnings) + SanitizeKind(v).warnings
    {
      r := v;
      if v == Str(Candles) || IsKnownTaggedEnum(v, KINDS) { return; }
      r := Str(Candles);
      Warn(KindUnknown);
    }

    method SanitizeSettings(v: Json) returns (r: Json)
      modifies this
      ensures r == J.SanitizeSettings(v).value && warnings == old(warnings) + J.SanitizeSettings(v).warnings
      ensures CleanSettings(r) && (CleanSettings(v) <==> r == v && warnings == old(warnings))
      ensures warnings == old(warnings) <==> QuietSettings(v)
      ensures SparedSettings(v, r)
    {
      SettingsSpared(v);
      SettingsCleaned(v);
      SettingsWarn(v);
      r := RewriteSettings(v);
    }

    method RewriteSettings(v: Json) returns (r: Json)
      modifies this
      ensures r == J.SanitizeSettings(v).value && warnings == old(warnings) + J.SanitizeSettings(v).warnings
    {
      if !v.Obj? {
        r := Obj(map[]);
        Warn(SettingsInvalid);
        return;
      }
      var settings := v.fields;
      if VisualConfig in settings && settings[VisualConfig] != Null
         && !IsKnownTaggedEnum(settings[VisualConfig], VISUALS) {
        settings := settings - {VisualConfig};
        Warn(VisualConfigUnknown);
      }
      if HasKlineConfig(settings) {
        var config := settings[VisualConfig].fields;
        var kline := config[Kline].fields;
        if GexLevelsKey in kline {
          var legacy := kline[GexLevelsKey];
          kline := kline - {GexLevelsKey};
          var configs := if IndicatorConfigs in kline then kline[IndicatorConfigs] else Obj(map[]);
          if configs.Obj? {
            var c := configs.fields;
            if GexLevelsKey !in c { c := c[GexLevelsKey := legacy]; }
            kline := kline[IndicatorConfigs := Obj(c)];
            Warn(LegacyMoved);
          }
        }
        settings := settings[VisualConfig := Obj(config[Kline := Obj(kline)])];
      }
      r := Obj(settings);
    }

    method SettleSettings(f: Fields) returns (r: Fields)
      modifies this
      ensures r == J.SettleSettings(f).0 && warnings == old(warnings) + J.SettleSettings(f).1
    {
      var settings := SanitizeSettings(Entry(f, Settings, Obj(map[])));
      r := f[Settings := settings];
    }

    method SettleKind(f: Fields) returns (r: Fields)
      modifies this
      ensures r == J.SettleKind(f).0 && warnings == old(warnings) + J.SettleKind(f).1
    {
      var kind := SanitizeKlineKind(Entry(f, Kind, Str(Candles)));
      r := f[Kind := kind];
    }

    method SanitizeHeatmap(f: Fields) returns (r: Fields)
      modifies this
      ensures r == J.SanitizeHeatmap(f).0 && warnings == old(warnings) + J.SanitizeHeatmap(f).1
    {
      ghost var w := warnings;
      var f1 := SanitizeVecTaggedEnum(f, Indicators, HEATMAP_INDICATORS);
      var f2 := SanitizeVecTaggedEnum(f1, StreamType, STREAMS);
      r := SettleSettings(f2);
      Gather(w, SanitizeList(f, Indicators, HEATMAP_INDICATORS).1, SanitizeList(f1, StreamType, STREAMS).1,
             J.SettleSettings(f2).1, []);
    }

    method SanitizeKlineChart(f: Fields) returns (r: Fields)
      modifies this
      ensures r == J.SanitizeKlineChart(f).0 && warnings == old(warnings) + J.SanitizeKlineChart(f).1
    {
      ghost var w := warnings;
      var f1 := SanitizeVecTaggedEnum(f, Indicators, KLINE_INDICATORS);
      var f2 := SanitizeVecTaggedEnum(f1, StreamType, STREAMS);
      var f3 := SettleKind(f2);
      r := SettleSettings(f3);
      Gather(w, SanitizeList(f, Indicators, KLINE_INDICATORS).1, SanitizeList(f1, StreamType, STREAMS).1,
             J.SettleKind(f2).1, J.SettleSettings(f3).1);
    }

    method SanitizeStreams(f: Fields) returns (r: Fields)
      modifies this
      ensures r == J.SanitizeStreams(f).0 && warnings == old(warnings) + J.SanitizeStreams(f).1
    {
      ghost var w := warnings;
      var f1 := SanitizeVecTaggedEnum(f, StreamType, STREAMS);
      r := SettleSettings(f1);
      Gather(w, SanitizeList(f, StreamType, STREAMS).1, J.SettleSettings(f1).1, [], []);
    }

    method SanitizeLeaf(tag: Text, f: Fields) returns (r: Fields)
      modifies this
      ensures r == J.SanitizeLeaf(tag, f).0 && warnings == old(warnings) + J.SanitizeLeaf(tag, f).1
    {
      if tag == HeatmapChart || tag == ShaderHeatmap {
        r := SanitizeHeatmap(f);
      } else if tag == KlineChart {
        r := SanitizeKlineChart(f);
      } else if tag == GexChart {
        r := SettleSettings(f);
      } else if tag == ComparisonChart || tag == TimeAndSales || tag == Ladder {
        r := SanitizeStreams(f);
      } else {
        r := f;
      }
    }

    method SanitizeLeafPane(f: Fields) returns (r: Json)
      requires |f| == 1 && f.Keys <= LEAVES
      modifies this
      ensures r == J.SanitizeLeafPane(f).value && warnings == old(warnings) + J.SanitizeLeafPane(f).warnings
    {
      var tag := OnlyKey(f);
      r := Obj(f);
      if tag in f && f[tag].Obj? {
        var inner := SanitizeLeaf(tag, f[tag].fields);
        r := Obj(f[tag := Obj(inner)]);
      }
    }

    method SanitizeChild(split: Json, key: Text) returns (r: Json)
      requires split.Obj?
      modifies this
      ensures r == Child(split, key).value && warnings == old(warnings) + Child(split, key).warnings
      decreases split, 0
    {
      r := DEFAULT_PANE;
      if key in split.fields { r := SanitizePane(split.fields[key]); }
    }

    method FixAxisAndRatio(s: Fields) returns (r: Fields)
      modifies this
      ensures r == FixSplit(s).0 && warnings == old(warnings) + FixSplit(s).1
    {
      r := s;
      if !AxisOk(r) {
        r := r[Axis := Str(Horizontal)];
        Warn(AxisInvalid);
      }
      r := r[Ratio := Num(Float(RatioOf(r)))];
    }

    method SanitizeSplit(split: Json) returns (r: Json)
      requires split.Obj?
      modifies this
      ensures r == J.SanitizeSplit(split).value && warnings == old(warnings) + J.SanitizeSplit(split).warnings
      decreases split, 1
    {
      ghost var w := warnings;
      var s := FixAxisAndRatio(split.fields);
      var a := SanitizeChild(split, A);
      var b := SanitizeChild(split, B);
      r := Obj(map[Split := Obj(s[A := a][B := b])]);
      Gather(w, FixSplit(split.fields).1, Child(split, A).warnings, Child(split, B).warnings, []);
    }

    method SanitizePane(v: Json) returns (r: Json)
      modifies this
      ensures r == J.SanitizePane(v).value && warnings == old(warnings) + J.SanitizePane(v).warnings
      ensures SparedPane(v, r) && CleanPane(r)
      decreases v, 2
    {
      PaneSpared(v);
      PaneCleaned(v);
      r := DEFAULT_PANE;
      if !v.Obj? { Warn(PaneInvalid); return; }
      var f := v.fields;
      if |f| != 1 { Warn(PaneTagInvalid); return; }
      if Split in f {
        if !f[Split].Obj? { Warn(SplitInvalid); return; }
        r := SanitizeSplit(f[Split]);
      } else if f.Keys <= LEAVES {
        r := SanitizeLeafPane(f);
      } else {
        Warn(PaneUnknown);
      }
    }

    method RetainPopout(entry: Json) returns (one: seq<Json>)
      modifies this
      ensures one == KeepPopout(entry).0 && warnings == old(warnings) + KeepPopout(entry).1
    {
      one := [];
      if !entry.Arr? {
        Warn(PopoutInvalid);
      } else if |entry.items| != 2 {
        Warn(PopoutTupleInvalid);
      } else {
        var pane := SanitizePane(entry.items[0]);
        one := [Arr([pane, entry.items[1]])];
      }
    }

    /** The `retain_mut` over popout pairs. */
    method RetainPopouts(items: seq<Json>) returns (kept: seq<Json>)
      modifies this
      ensures kept == RepairEach(items, KeepPopout).0 && warnings == old(warnings) + RepairEach(items, KeepPopout).1
    {
      kept := [];
      ghost var w, keep := warnings, KeepPopout;
      for i := 0 to |items|
        invariant kept == RepairEach(items[..i], keep).0 && warnings == w + RepairEach(items[..i], keep).1
      {
        ghost var before := warnings;
        var one := RetainPopout(items[i]);
        kept := kept + one;
        EachAppended(items, keep, i, w, before, keep(items[i]).1);
      }
      assert items[..|items|] == items;
    }

    method SanitizePopouts(f: Fields) returns (r: Fields)
      modifies this
      ensures r == J.SanitizePopouts(f).0 && warnings == old(warnings) + J.SanitizePopouts(f).1
    {
      if Popout in f && f[Popout].Arr? {
        var popouts := RetainPopouts(f[Popout].items);
        r := f[Popout := Arr(popouts)];
      } else {
        r := f[Popout := Arr([])];
      }
    }

    method SanitizeDashboard(v: Json) returns (r: Json)
      modifies this
      ensures r == J.SanitizeDashboard(v).value && warnings == old(warnings) + J.SanitizeDashboard(v).warnings
      ensures SparedDashboard(v, r)
    {
      DashboardSpared(v);
      if !v.Obj? {
        r := Obj(map[PaneKey := DEFAULT_PANE, Popout := Arr([])]);
        Warn(DashboardInvalid);
        return;
      }
      ghost var w := warnings;
      var pane := SanitizePane(Entry(v.fields, PaneKey, DEFAULT_PANE));
      var f := SanitizePopouts(v.fields[PaneKey := pane]);
      Gather(w, J.SanitizePane(Entry(v.fields, PaneKey, DEFAULT_PANE)).warnings,
             J.SanitizePopouts(v.fields[PaneKey := pane]).1, [], []);
      r := Obj(f);
    }

    method SanitizeLayout(v: Json) returns (r: Json)
      modifies this
      ensures r == J.SanitizeLayout(v).value && warnings == old(warnings) + J.SanitizeLayout(v).warnings
    {
      if !v.Obj? {
        r := DEFAULT_LAYOUT;
        Warn(LayoutInvalid);
        return;
      }
      var f := v.fields;
      if !(Name in f && f[Name].Str?) { f := f[Name := Str(Recovered)]; }
      var dashboard := SanitizeDashboard(Entry(f, DashboardKey, Obj(map[])));
      r := Obj(f[DashboardKey := dashboard]);
    }

    method SanitizeLayouts(items: seq<Json>) returns (done: seq<Json>)
      modifies this
      ensures done == RepairEach(items, KeepLayout).0 && warnings == old(warnings) + RepairEach(items, KeepLayout).1
    {
      done := [];
      ghost var w, keep := warnings, KeepLayout;
      for i := 0 to |items|
        invariant done == RepairEach(items[..i], keep).0 && warnings == w + RepairEach(items[..i], keep).1
      {
        ghost var before := warnings;
        var layout := SanitizeLayout(items[i]);
        done := done + [layout];
        EachAppended(items, keep, i, w, before, keep(items[i]).1);
      }
      assert items[..|items|] == items;
    }

    method SanitizeLayoutManager(v: Json) returns (r: Json)
      modifies this
      ensures r == J.SanitizeLayoutManager(v).value && warnings == old(warnings) + J.SanitizeLayoutManager(v).warnings
      ensures SparedManager(v, r)
    {
      ManagerSpared(v);
      if !v.Obj? {
        r := Obj(map[Layouts := Arr([DEFAULT_LAYOUT]), ActiveLayout := Str(Default)]);
        Warn(LayoutManagerInvalid);
        return;
      }
      if Layouts in v.fields && v.fields[Layouts].Arr? {
        var layouts := SanitizeLayouts(v.fields[Layouts].items);
        r := Obj(v.fields[Layouts := Arr(layouts)]);
      } else {
        r := Obj(v.fields[Layouts := Arr([DEFAULT_LAYOUT])]);
        Warn(LayoutsMissing);
      }
    }

    /** Reads the version, makes the root an object of the current version, and repairs the layouts under it. */
    method MigrateSavedStateValue(v: Json) returns (r: Json, fromVersion: nat)
      modifies this
      ensures r == MigrateSavedState(v).value && warnings == old(warnings) + MigrateSavedState(v).warnings
      ensures fromVersion == FromVersion(v) && ReadVersion(v, fromVersion)
      ensures CleanState(r) && (CleanState(v) <==> r == v && warnings == old(warnings))
      ensures warnings == old(warnings) <==> QuietState(v)
      ensures SparedState(v, r)
    {
      StateSpared(v);
      StateCleaned(v);
      StateWarns(v);
      fromVersion := FromVersion(v);
      r := RewriteRoot(v);
    }

    method RewriteRoot(v: Json) returns (r: Json)
      modifies this
      ensures r == MigrateSavedState(v).value && warnings == old(warnings) + MigrateSavedState(v).warnings
    {
      var root := map[];
      if v.Obj? {
        root := v.fields;
      } else {
        Warn(RootInvalid);
      }
      root := root[SavedStateVersion := Num(Whole(CURRENT_SAVED_STATE_VERSION))];
      if LayoutManager in root {
        var manager := SanitizeLayoutManager(root[LayoutManager]);
        root := root[LayoutManager := manager];
      }
      r := Obj(root);
    }
  }

  /** The version is a whole number of 32 bits under its key; anything else counts as 0. */
  ghost predicate ReadVersion(v: Json, version: nat) {
    if v.Obj? && SavedStateVersion in v.fields
       && exists n: nat :: v.fields[SavedStateVersion] == Num(Whole(n)) && n < 0x1_0000_0000
    then v.fields[SavedStateVersion] == Num(Whole(version))
    else version == 0
  }

  lemma EachAppended(items: seq<Json>, keep: Json -> (seq<Json>, seq<Warning>), i: nat,
                     w: seq<Warning>, before: seq<Warning>, more: seq<Warning>)
    requires i < |items| && before == w + RepairEach(items[..i], keep).1 && more == keep(items[i]).1
    ensures RepairEach(items[..i + 1], keep).0 == RepairEach(items[..i], keep).0 + keep(items[i]).0
    ensures before + more == w + RepairEach(items[..i + 1], keep).1
  {
    EachSnoc(items, keep, i);
  }

  lemma Gather(w: seq<Warning>, a: seq<Warning>, b: seq<Warning>, c: seq<Warning>, d: seq<Warning>)
    ensures w + a + b + c + d == w + (a + b + c + d)
    ensures w + a + b + c == w + (a + b + c)
    ensures w + a + b == w + (a + b)
  {
  }

  lemma EachSnoc(items: seq<Json>, keep: Json -> (seq<Json>, seq<Warning>), i: nat)
    requires i < |items|
    ensures RepairEach(items[..i + 1], keep) ==
      (RepairEach(items[..i], keep).0 + keep(items[i]).0, RepairEach(items[..i], keep).1 + keep(items[i]).1)
  {
    assert items[..i + 1][..i] == items[..i];
  }
}

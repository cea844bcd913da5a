// Typed layouts: the validator for imported templates, the repair of a decoded
// state, and how far the JSON repair goes towards passing the validator.

module Template {
  import opened Wrappers
  import opened Blankness

  const MAX_TEMPLATE_PANES: nat := 128
  const MAX_TEMPLATE_DEPTH: nat := 32

  /** A 32-bit float: a number, or one of the infinities and NaNs. */
  datatype F32 = Finite(x: real) | NotFinite

  datatype Pane = SplitPane(ratio: F32, a: Pane, b: Pane) | LeafPane

  datatype Window = Window(width: F32, height: F32, posX: F32, posY: F32)

  datatype Popout = Popout(pane: Pane, window: Window)

  datatype Layout = Layout(name: string, pane: Pane, popout: seq<Popout>)

  datatype Fault = TooDeep | TooManyPanes | BadRatio | BadWindow | NoName

  // ------------------------------------------------ what a template may be

  function Nodes(p: Pane): nat {
    match p
    case SplitPane(_, a, b) => 1 + Nodes(a) + Nodes(b)
    case LeafPane => 1
  }

  /** The depth of the deepest node below the root. */
  function Height(p: Pane): nat {
    match p
    case SplitPane(_, a, b) => 1 + if Height(a) >= Height(b) then Height(a) else Height(b)
    case LeafPane => 0
  }

  predicate RatioOk(r: F32) {
    r.Finite? && 0.05 <= r.x <= 0.95
  }

  predicate RatiosOk(p: Pane) {
    p.SplitPane? ==> RatioOk(p.ratio) && RatiosOk(p.a) && RatiosOk(p.b)
  }

  predicate WindowOk(w: Window) {
    && w.width.Finite? && w.height.Finite? && w.posX.Finite? && w.posY.Finite?
    && w.width.x > 0.0 && w.height.x > 0.0
  }

  function PopoutNodes(popouts: seq<Popout>): nat {
    if popouts == [] then 0 else PopoutNodes(popouts[..|popouts| - 1]) + Nodes(popouts[|popouts| - 1].pane)
  }

  predicate PaneFits(p: Pane) {
    Height(p) <= MAX_TEMPLATE_DEPTH && RatiosOk(p)
  }

  predicate PopoutFits(p: Popout) {
    PaneFits(p.pane) && WindowOk(p.window)
  }

  ghost predicate LegalTemplate(l: Layout) {
    && !Blank(l.name)
    && PaneFits(l.pane) && (forall i :: 0 <= i < |l.popout| ==> PopoutFits(l.popout[i]))
    && Nodes(l.pane) + PopoutNodes(l.popout) <= MAX_TEMPLATE_PANES
  }

  // ------------------------------------------------------- the validator

  /** The recursive check: it counts as it goes and stops at the first fault. */
  method ValidateTemplatePane(pane: Pane, depth: nat, panes: nat) returns (fault: Option<Fault>, counted: nat)
    requires panes <= MAX_TEMPLATE_PANES
    ensures fault.None? <==>
      depth + Height(pane) <= MAX_TEMPLATE_DEPTH && panes + Nodes(pane) <= MAX_TEMPLATE_PANES && RatiosOk(pane)
    ensures fault.None? ==> counted == panes + Nodes(pane)
    ensures match fault
      case None => true
      case Some(TooDeep) => depth + Height(pane) > MAX_TEMPLATE_DEPTH
      case Some(TooManyPanes) => panes + Nodes(pane) > MAX_TEMPLATE_PANES
      case Some(BadRatio) => !RatiosOk(pane)
      case Some(_) => false
    decreases pane
  {
    counted := panes;
    if depth > MAX_TEMPLATE_DEPTH { return Some(TooDeep), counted; }
    counted := counted + 1;
    if counted > MAX_TEMPLATE_PANES { return Some(TooManyPanes), counted; }
    if pane.SplitPane? {
      if !pane.ratio.Finite? || !(0.05 <= pane.ratio.x <= 0.95) { return Some(BadRatio), counted; }
      fault, counted := ValidateTemplatePane(pane.a, depth + 1, counted);
      if fault.Some? { return; }
      fault, counted := ValidateTemplatePane(pane.b, depth + 1, counted);
      if fault.Some? { return; }
    }
    fault := None;
  }

  method ValidatePopouts(popouts: seq<Popout>, start: nat) returns (fault: Option<Fault>)
    requires start <= MAX_TEMPLATE_PANES
    ensures fault.None? <==>
      (forall i :: 0 <= i < |popouts| ==> PopoutFits(popouts[i])) && start + PopoutNodes(popouts) <= MAX_TEMPLATE_PANES
    ensures fault == Some(BadWindow) ==> exists i :: 0 <= i < |popouts| && !WindowOk(popouts[i].window)
    ensures fault != Some(NoName)
  {
    var panes := start;
    for i := 0 to |popouts|
      invariant forall k :: 0 <= k < i ==> PopoutFits(popouts[k])
      invariant panes == start + PopoutNodes(popouts[..i]) <= MAX_TEMPLATE_PANES
    {
      var popout := popouts[i];
      assert popouts[..i + 1][..i] == popouts[..i];
      PopoutNodesGrow(popouts, i + 1);
      var w := popout.window;
      if !w.width.Finite? || !w.height.Finite? || !w.posX.Finite? || !w.posY.Finite?
         || w.width.x <= 0.0 || w.height.x <= 0.0 {
        return Some(BadWindow);
      }
      fault, panes := ValidateTemplatePane(popout.pane, 0, panes);
      if fault.Some? { return; }
    }
    assert popouts[..|popouts|] == popouts;
    fault := None;
  }

  /** Accepts exactly the legal templates. */
  method ValidateTemplateLayout(layout: Layout) returns (fault: Option<Fault>)
    ensures fault.None? <==> LegalTemplate(layout)
    ensures fault == Some(NoName) <==> Blank(layout.name)
    ensures fault == Some(BadWindow) ==> exists i :: 0 <= i < |layout.popout| && !WindowOk(layout.popout[i].window)
  {
    if Blank(layout.name) { return Some(NoName); }
    var panes;
    fault, panes := ValidateTemplatePane(layout.pane, 0, 0);
    if fault.Some? {
      PopoutNodesGrow(layout.popout, 0);
      return;
    }
    fault := ValidatePopouts(layout.popout, panes);
  }

  lemma {:induction false} PopoutNodesGrow(popouts: seq<Popout>, i: nat)
    requires i <= |popouts|
    ensures PopoutNodes(popouts[..i]) <= PopoutNodes(popouts)
    decreases |popouts| - i
  {
    if i < |popouts| {
      PopoutNodesGrow(popouts, i + 1);
      assert popouts[..i + 1][..i] == popouts[..i];
    } else {
      assert popouts[..i] == popouts;
    }
  }
}

/** The JSON repair seen through the decoder: what it settles for the validator. */
module RepairedTemplates {
  import opened Wrappers
  import opened SavedJson
  import opened SavedJsonTheorems
  import T = Template

  /** The pane tree a clean value decodes to. */
  ghost function Decoded(v: Json): T.Pane
    requires CleanPane(v)
    decreases v
  {
    if Split in v.fields then
      var s := v.fields[Split].fields;
      T.SplitPane(T.Finite(s[Ratio].number.x), Decoded(s[A]), Decoded(s[B]))
    else T.LeafPane
  }

  lemma {:induction false} CleanRatiosPass(v: Json)
    requires CleanPane(v)
    ensures T.RatiosOk(Decoded(v))
    decreases v
  {
    if Split in v.fields {
      var s := v.fields[Split].fields;
      CleanRatiosPass(s[A]);
      CleanRatiosPass(s[B]);
    }
  }

  /** Of any value, the repaired pane tree is turned away by the validator only for its depth or its size. */
  lemma RepairedPanePasses(v: Json)
    ensures CleanPane(SanitizePane(v).value) && T.RatiosOk(Decoded(SanitizePane(v).value))
    ensures T.PaneFits(Decoded(SanitizePane(v).value)) <==>
      T.Height(Decoded(SanitizePane(v).value)) <= T.MAX_TEMPLATE_DEPTH
  {
    PaneCleaned(v);
    CleanRatiosPass(SanitizePane(v).value);
  }
}

/** Repair of the decoded state: there is a layout, the active one exists, the window can be seen. */
module DecodedState {
  import opened Wrappers
  import opened Template

  const MAX_REASONABLE_WINDOW_COORD: real := 20_000.0
  const DEFAULT_NAME := "Default"
  const DEFAULT_LAYOUT := Layout(DEFAULT_NAME, LeafPane, [])

  datatype Warning = NoLayouts | ActiveMissing | WindowInvalid

  predicate Named(layouts: seq<Layout>, name: string) {
    exists i :: 0 <= i < |layouts| && layouts[i].name == name
  }

  predicate Near(x: F32) {
    x.Finite? && -MAX_REASONABLE_WINDOW_COORD <= x.x <= MAX_REASONABLE_WINDOW_COORD
  }

  predicate Visible(w: Window) {
    WindowOk(w) && Near(w.posX) && Near(w.posY)
  }

  class State {
    var layouts: seq<Layout>
    var activeLayout: Option<string>
    var mainWindow: Option<Window>

    constructor (layouts: seq<Layout>, activeLayout: Option<string>, mainWindow: Option<Window>)
      ensures this.layouts == layouts && this.activeLayout == activeLayout && this.mainWindow == mainWindow
    {
      this.layouts, this.activeLayout, this.mainWindow := layouts, activeLayout, mainWindow;
    }

    /** Nothing left to repair. */
    predicate Sound()
      reads this
    {
      && layouts != []
      && (activeLayout.Some? ==> Named(layouts, activeLayout.value))
      && (mainWindow.Some? ==> Visible(mainWindow.value))
    }

    /**
     * Afterwards the state is sound; a sound state is left as it is without a
     * warning, and every warning names something that was wrong.
     */
    method SanitizeState() returns (warnings: seq<Warning>)
      modifies this
      ensures Sound()
      ensures warnings == [] <==> old(Sound())
      ensures old(Sound()) ==>
        layouts == old(layouts) && activeLayout == old(activeLayout) && mainWindow == old(mainWindow)
      ensures layouts == if old(layouts) == [] then [DEFAULT_LAYOUT] else old(layouts)
      ensures activeLayout ==
        if old(layouts) == [] then Some(DEFAULT_NAME)
        else if old(activeLayout).Some? && !Named(old(layouts), old(activeLayout).value) then Some(old(layouts)[0].name)
        else old(activeLayout)
      ensures NoLayouts in warnings <==> old(layouts) == []
      ensures ActiveMissing in warnings <==>
        old(layouts) != [] && old(activeLayout).Some? && !Named(old(layouts), old(activeLayout).value)
      ensures WindowInvalid in warnings <==> old(mainWindow).Some? && !Visible(old(mainWindow).value)
    {
      warnings := [];
      if layouts == [] {
        warnings := warnings + [NoLayouts];
        layouts := layouts + [DEFAULT_LAYOUT];
        activeLayout := Some(DEFAULT_NAME);
        assert layouts[0].name == DEFAULT_NAME;
      }
      if activeLayout.Some? && !Named(layouts, activeLayout.value) {
        warnings := warnings + [ActiveMissing];
        activeLayout := Some(layouts[0].name);
      }
      var windowWarnings := SanitizeMainWindow();
      warnings := warnings + windowWarnings;
    }

    method SanitizeMainWindow() returns (warnings: seq<Warning>)
      modifies this`mainWindow
      ensures warnings == if old(mainWindow).Some? && !Visible(old(mainWindow).value) then [WindowInvalid] else []
      ensures mainWindow == if warnings == [] then old(mainWindow) else None
    {
      warnings := [];
      if mainWindow.None? { return; }
      var w := mainWindow.value;
      var invalidSize := !w.width.Finite? || !w.height.Finite? || w.width.x <= 0.0 || w.height.x <= 0.0;
      var invalidPosition := !w.posX.Finite? || !w.posY.Finite?
        || w.posX.x > MAX_REASONABLE_WINDOW_COORD || w.posX.x < -MAX_REASONABLE_WINDOW_COORD
        || w.posY.x > MAX_REASONABLE_WINDOW_COORD || w.posY.x < -MAX_REASONABLE_WINDOW_COORD;
      if invalidSize || invalidPosition {
        mainWindow := None;
        warnings := [WindowInvalid];
      }
    }
  }
}

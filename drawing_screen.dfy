/**
 * The drawing page: its tool state, the stroke colour derived from it, the
 * JavaScript `injectDrawingSettings` builds for the canvas page, the canvas
 * style sheet, and the readiness guard of `handleToolChange`.
 */
module DrawingScreen {
  import opened Results
  import opened JsText
  import opened ToolBoxDrawing

  /** The tool state the page starts with: the black pencil, width 2. */
  const InitialTools := Tools(false, 2, "black")

  /** The colour strokes are drawn in: white for the eraser, the pen colour otherwise. */
  function StrokeColor(t: Tools): string {
    if t.isEraser then "white" else t.color
  }

  /**
   * With a colour from the palette (which has no white), the stroke is white
   * exactly when the eraser is on, and otherwise it is the chosen colour.
   */
  lemma StrokeColorSpec(t: Tools)
    requires t.color in Colors
    ensures StrokeColor(t) == "white" <==> t.isEraser
    ensures !t.isEraser ==> StrokeColor(t) == t.color && StrokeColor(t) in Colors
  {
  }

  /** The statement that sets the line width. */
  function LineWidthLine(t: Tools): string {
    "ctx.lineWidth = " + IntToString(t.size) + ";"
  }

  /** The statement that sets the stroke colour. */
  function StrokeStyleLine(t: Tools): string {
    "ctx.strokeStyle = \"" + StrokeColor(t) + "\";"
  }

  const ScriptHead :=
    "\n      (function() {\n        var canvas = document.querySelector(\"canvas\");\n"
    + "        if (canvas) {\n          var ctx = canvas.getContext(\"2d\");\n          "
  const ScriptTail :=
    "\n          ctx.lineCap = 'round';\n          ctx.lineJoin = 'round';\n"
    + "          true; // Important pour le retour\n        }\n      })();\n    "

  /** `injectDrawingSettings()`: the script that applies the tool state to the canvas. */
  function DrawingSettingsScript(t: Tools): string {
    ScriptHead + LineWidthLine(t) + "\n          " + StrokeStyleLine(t) + ScriptTail
  }

  /** The script sets `lineWidth` to the size and `strokeStyle` to the stroke colour. */
  lemma ScriptAppliesTools(t: Tools)
    ensures Occurs("ctx.lineWidth = " + IntToString(t.size) + ";", DrawingSettingsScript(t))
    ensures Occurs("ctx.strokeStyle = \"" + StrokeColor(t) + "\";", DrawingSettingsScript(t))
  {
    OccursInFive(ScriptHead, LineWidthLine(t), "\n          ", StrokeStyleLine(t), ScriptTail);
  }

  /** Two tool states with the same size and stroke colour give the same script. */
  lemma ScriptDependsOnStrokeOnly(a: Tools, b: Tools)
    requires a.size == b.size && StrokeColor(a) == StrokeColor(b)
    ensures DrawingSettingsScript(a) == DrawingSettingsScript(b)
  {
  }

  const StyleHead :=
    "\n            .m-signature-pad--footer { display: none; }\n"
    + "            body, html { background-color: white; height: 100%; margin: 0; overflow: hidden; }\n"
    + "            canvas {\n              touch-action: none;\n              "
  const StyleTail := "\n            }\n          "

  /** The declaration that sets the stroke colour. */
  function StrokeDecl(t: Tools): string {
    "stroke: " + StrokeColor(t) + ";"
  }

  /** The declaration that sets the stroke width. */
  function StrokeWidthDecl(t: Tools): string {
    "stroke-width: " + IntToString(t.size) + ";"
  }

  /** The canvas `webStyle`: the same stroke colour and the size as stroke width. */
  function WebStyle(t: Tools): string {
    StyleHead + StrokeDecl(t) + "\n              " + StrokeWidthDecl(t) + StyleTail
  }

  /** The style sheet strokes in the stroke colour, at the chosen width. */
  lemma WebStyleAppliesTools(t: Tools)
    ensures Occurs("stroke: " + StrokeColor(t) + ";", WebStyle(t))
    ensures Occurs("stroke-width: " + IntToString(t.size) + ";", WebStyle(t))
  {
    OccursInFive(StyleHead, StrokeDecl(t), "\n              ", StrokeWidthDecl(t), StyleTail);
  }

  /** The page's state. */
  class DrawingScreen {
    const tools: ToolState
    var isWebViewReady: bool
    /** Whether `webviewRef.current` is set: the ref is never attached to a component. */
    var webViewAttached: bool

    constructor()
      ensures fresh(tools) && tools.State() == InitialTools
      ensures !isWebViewReady && !webViewAttached
    {
      tools := new ToolState(false, 2, "black");
      isWebViewReady := false;
      webViewAttached := false;
    }

    /**
     * `handleToolChange`: the script handed to `injectJavaScript`, or `None` when
     * the page is not ready or the ref is unset.
     */
    method HandleToolChange() returns (injected: Option<string>)
      ensures isWebViewReady && webViewAttached ==> injected == Some(DrawingSettingsScript(tools.State()))
      ensures !(isWebViewReady && webViewAttached) ==> injected == None
    {
      if !isWebViewReady || !webViewAttached {
        return None;
      }
      injected := Some(DrawingSettingsScript(tools.State()));
    }

    /**
     * `handleWebViewLoad`: mark the page ready, then run the `handleToolChange` of
     * the same render, which still sees the readiness from before the load.
     */
    method HandleWebViewLoad() returns (injected: Option<string>)
      modifies this
      ensures isWebViewReady && webViewAttached == old(webViewAttached)
      ensures old(isWebViewReady) && webViewAttached ==> injected == Some(DrawingSettingsScript(tools.State()))
      ensures !(old(isWebViewReady) && webViewAttached) ==> injected == None
    {
      var wasReady := isWebViewReady;
      isWebViewReady := true;
      if !wasReady || !webViewAttached {
        return None;
      }
      injected := Some(DrawingSettingsScript(tools.State()));
    }
  }

  /**
   * Because the ref is never attached, no sequence of loads and tool presses ever
   * makes `handleToolChange` inject a script. The loop invariant is only a frame
   * fact: no handler of the page assigns `webviewRef.current` (it is created with
   * `useRef(null)` and passed to no component), so every run of the handlers
   * keeps it unset, and that alone closes the injection guard. The page does not
   * pass `handleWebViewLoad` to any component either (the canvas gets only
   * `ref={signatureRef}`), so the load event called here is one the app never
   * fires; even with it the guard stays closed.
   */
  method NothingIsInjected(ps: seq<ToolPress>) returns (injected: Option<string>)
    ensures injected == None
  {
    var screen := new DrawingScreen();
    var onLoad := screen.HandleWebViewLoad();
    var k := 0;
    while k < |ps|
      invariant 0 <= k <= |ps|
      invariant !screen.webViewAttached
    {
      screen.tools.HandleToolPress(ps[k]);
      k := k + 1;
    }
    injected := screen.HandleToolChange();
  }
}

/**
 * The drawing tool box: the eraser and pencil buttons, the size and colour
 * palettes, and `handleToolPress`, which sets the tool state the drawing
 * screen passes in with its setters.
 */
module ToolBoxDrawing {

  /** The tool state: eraser on or off, line width, pen colour. */
  datatype Tools = Tools(isEraser: bool, size: int, color: string)

  /** The sizes the tool box offers. */
  const Sizes: seq<int> := [1, 2, 5, 8]

  /** The colours the tool box offers. */
  const Colors: seq<string> :=
    ["black", "red", "green", "blue", "yellow", "orange", "lightblue", "lightgray"]

  /** An action name that none of the four branches of `handleToolPress` tests for. */
  type OtherAction = a: string | a != "eraser" && a != "pencil" && a != "size" && a != "color"
    witness ""

  /** A call `handleToolPress(action, value)`. */
  datatype ToolPress =
    | Eraser                    // 'eraser'
    | Pencil                    // 'pencil'
    | Size(size: int)           // 'size' with the chosen width
    | Color(color: string)      // 'color' with the chosen colour
    | Other(action: OtherAction)

  /** The tool state after a press. */
  function Pressed(t: Tools, p: ToolPress): Tools {
    match p
    case Eraser => t.(isEraser := true)
    case Pencil => t.(isEraser := false)
    case Size(v) => t.(size := v)
    case Color(v) => t.(isEraser := false, color := v)
    case Other(_) => t
  }

  /**
   * The eraser and pencil switch the eraser only, a size press sets the size only,
   * a colour press sets the colour and always turns the eraser off, and any other
   * action changes nothing.
   */
  lemma PressEffects(t: Tools, p: ToolPress)
    ensures p.Eraser? ==> Pressed(t, p).isEraser && Pressed(t, p).(isEraser := t.isEraser) == t
    ensures p.Pencil? ==> !Pressed(t, p).isEraser && Pressed(t, p).(isEraser := t.isEraser) == t
    ensures p.Size? ==> Pressed(t, p).size == p.size && Pressed(t, p).(size := t.size) == t
    ensures p.Color? ==>
      Pressed(t, p).color == p.color && !Pressed(t, p).isEraser && Pressed(t, p).size == t.size
    ensures p.Other? ==> Pressed(t, p) == t
  {
  }

  /** Pressing the same button twice is pressing it once. */
  lemma PressIdempotent(t: Tools, p: ToolPress)
    ensures Pressed(Pressed(t, p), p) == Pressed(t, p)
  {
  }

  /** The presses in `ps`, one after the other. */
  function PressAll(t: Tools, ps: seq<ToolPress>): Tools
    decreases |ps|
  {
    if ps == [] then t else PressAll(Pressed(t, ps[0]), ps[1..])
  }

  /** The tool state uses a size and a colour the palettes offer. */
  predicate OnPalette(t: Tools) {
    t.size in Sizes && t.color in Colors
  }

  /** A press the tool box's buttons can make. */
  predicate Offered(p: ToolPress) {
    match p
    case Eraser => true
    case Pencil => true
    case Size(v) => v in Sizes
    case Color(c) => c in Colors
    case Other(_) => false
  }

  /** Pressing only offered buttons keeps the state on the palettes. */
  lemma {:induction false} PaletteKept(t: Tools, ps: seq<ToolPress>)
    requires OnPalette(t)
    requires forall k :: 0 <= k < |ps| ==> Offered(ps[k])
    ensures OnPalette(PressAll(t, ps))
    decreases |ps|
  {
    if ps != [] {
      assert Offered(ps[0]);
      PaletteKept(Pressed(t, ps[0]), ps[1..]);
    }
  }

  /** Whatever the presses, the last size press decides the size. */
  lemma {:induction false} LastSizeWins(t: Tools, ps: seq<ToolPress>, v: int)
    ensures PressAll(t, ps + [Size(v)]).size == v
    decreases |ps|
  {
    if ps == [] {
      assert [Size(v)][1..] == [];
    } else {
      assert (ps + [Size(v)])[1..] == ps[1..] + [Size(v)];
      LastSizeWins(Pressed(t, ps[0]), ps[1..], v);
    }
  }

  /** The state cells the drawing screen hands to the tool box with their setters. */
  class ToolState {
    var isEraser: bool
    var size: int
    var color: string

    constructor(isEraser: bool, size: int, color: string)
      ensures State() == Tools(isEraser, size, color)
    {
      this.isEraser := isEraser;
      this.size := size;
      this.color := color;
    }

    function State(): Tools
      reads this
    {
      Tools(isEraser, size, color)
    }

    /** `handleToolPress`: the setters the pressed button calls. */
    method HandleToolPress(p: ToolPress)
      modifies this
      ensures State() == Pressed(old(State()), p)
    {
      match p
      case Eraser => isEraser := true;
      case Pencil => isEraser := false;
      case Size(v) => size := v;
      case Color(v) =>
        isEraser := false;
        color := v;
      case Other(_) =>
    }
  }
}

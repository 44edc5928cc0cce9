/** The signature pad (src/components/AttendanceForm/SignatureSection.tsx): a canvas the
    user draws on with mouse or touch, whose picture is handed to the form as a PNG data
    URL when a stroke ends and replaced by "" when the pad is cleared.

    The canvas is modelled by what the handlers do to it: its size, its line style, the
    current path of its 2D context and the segments stroked so far ("ink"). The PNG
    encoder is a parameter. */
module Signature {
  import Form

  /** A position in CSS pixels. */
  datatype Point = Point(x: real, y: real)

  /** The part of getBoundingClientRect() the handlers read. */
  datatype Rect = Rect(left: real, top: real)

  /** A mouse event carries one position; a touch event carries the list of touches. */
  datatype PointerEvent = Mouse(clientX: real, clientY: real) | Touch(touches: seq<Point>)

  /** Touch start and touch move events always carry at least one touch. */
  predicate WellFormed(e: PointerEvent) {
    e.Touch? ==> |e.touches| > 0
  }

  /** The client position a handler reads: the first touch of a touch event. */
  function ClientPoint(e: PointerEvent): Point
    requires WellFormed(e)
  {
    match e
    case Mouse(cx, cy) => Point(cx, cy)
    case Touch(touches) => touches[0]
  }

  /** Client coordinates translated to the canvas: client minus the rectangle's left/top. */
  function CanvasPoint(e: PointerEvent, rect: Rect): (p: Point)
    requires WellFormed(e)
    ensures p.x + rect.left == ClientPoint(e).x && p.y + rect.top == ClientPoint(e).y
  {
    Point(ClientPoint(e).x - rect.left, ClientPoint(e).y - rect.top)
  }

  /** A straight piece of a stroked path. */
  datatype Segment = Segment(from: Point, to: Point)

  /** The segments joining consecutive points of a path; a path of one point has none. */
  function Segments(path: seq<Point>): set<Segment>
    decreases |path|
  {
    if |path| < 2 then {} else {Segment(path[0], path[1])} + Segments(path[1..])
  }

  /** What the encoder sees: the bitmap's size and what is painted on it. */
  datatype CanvasImage = CanvasImage(width: nat, height: nat, ink: set<Segment>)

  /** canvas.toDataURL never returns the empty string ("data:," for an empty bitmap). */
  type DataUrl = s: string | s != "" witness "data:,"

  // The 2D context's defaults, which assigning the canvas size restores.
  const DefaultLineWidth: real := 1.0
  const DefaultLineCap: string := "butt"
  const DefaultStrokeStyle: string := "#000000"
  // The bitmap size of a canvas whose size was never assigned.
  const DefaultWidth: nat := 300
  const DefaultHeight: nat := 150

  // The style the mount effect and the resize handler apply.
  const PadLineWidth: real := 2.0
  const PadLineCap: string := "round"
  const PadStrokeStyle: string := "#000"

  /** Everything the handlers read or write. `hasCanvas` says whether the canvas ref is set,
      `hasContext` whether getContext("2d") gave a context, `listening` whether the resize
      listener was registered, `signature` is the form's signature value. */
  datatype PadState = PadState(
    hasCanvas: bool, hasContext: bool, listening: bool,
    isDrawing: bool, path: seq<Point>, ink: set<Segment>,
    width: nat, height: nat, lineWidth: real, lineCap: string, strokeStyle: string,
    signature: string)

  predicate Styled(s: PadState) {
    s.lineWidth == PadLineWidth && s.lineCap == PadLineCap && s.strokeStyle == PadStrokeStyle
  }

  /** The mount effect: without a canvas nothing happens; otherwise the bitmap is sized to
      the element's offset size, and only when a context exists is the style applied and the
      resize listener registered. */
  function Mounted(canvasPresent: bool, contextAvailable: bool, offsetWidth: nat, offsetHeight: nat,
                   signature: string): (s: PadState)
    ensures s.hasCanvas == canvasPresent && s.hasContext == contextAvailable
    ensures !s.isDrawing && s.ink == {} && s.path == [] && s.signature == signature
  {
    var initial := PadState(canvasPresent, contextAvailable, false, false, [], {},
                          DefaultWidth, DefaultHeight, DefaultLineWidth, DefaultLineCap,
                          DefaultStrokeStyle, signature);
    if !canvasPresent then initial
    else
      var sized := initial.(width := offsetWidth, height := offsetHeight);
      if !contextAvailable then sized
      else sized.(lineWidth := PadLineWidth, lineCap := PadLineCap, strokeStyle := PadStrokeStyle,
                  listening := true)
  }

  /** startDrawing: with a canvas and a context, a stroke begins and a new path is started
      at the canvas point of the event (beginPath, moveTo). */
  function Started(s: PadState, e: PointerEvent, rect: Rect): (t: PadState)
    requires WellFormed(e)
    ensures t.ink == s.ink && t.signature == s.signature
    ensures t.isDrawing <==> s.isDrawing || (s.hasCanvas && s.hasContext)
  {
    if !s.hasCanvas || !s.hasContext then s
    else s.(isDrawing := true, path := [CanvasPoint(e, rect)])
  }

  /** draw: during a stroke, the path is extended to the canvas point of the event (lineTo)
      and the whole path is stroked. */
  function Drawn(s: PadState, e: PointerEvent, rect: Rect): (t: PadState)
    requires WellFormed(e)
    ensures s.ink <= t.ink && t.signature == s.signature && t.isDrawing == s.isDrawing
    ensures |s.path| <= |t.path| && t.path[..|s.path|] == s.path
  {
    if !s.isDrawing || !s.hasCanvas || !s.hasContext then s
    else
      var path := s.path + [CanvasPoint(e, rect)];
      s.(path := path, ink := s.ink + Segments(path))
  }

  function Image(s: PadState): CanvasImage {
    CanvasImage(s.width, s.height, s.ink)
  }

  /** endDrawing (mouse up, mouse leave, touch end): the stroke is over; with a canvas, the
      form's signature becomes the encoding of the whole canvas. */
  function Ended(s: PadState, encode: CanvasImage -> DataUrl): (t: PadState)
    ensures !t.isDrawing && t.ink == s.ink && t.path == s.path
    ensures s.hasCanvas ==> t.signature != ""
  {
    var stopped := s.(isDrawing := false);
    if !s.hasCanvas then stopped else stopped.(signature := encode(Image(s)))
  }

  /** clearSignature: with a canvas and a context, the whole bitmap is erased and the
      signature becomes "". The current path is left as it is. */
  function Cleared(s: PadState): (t: PadState)
    ensures t.ink <= s.ink && t.isDrawing == s.isDrawing && t.path == s.path
    ensures t.signature == s.signature || t.signature == ""
  {
    if !s.hasCanvas || !s.hasContext then s else s.(ink := {}, signature := "")
  }

  /** handleResize: assigning the canvas size resets its bitmap, its path and its style, and
      the handler puts the style back. Only a registered listener runs. */
  function Resized(s: PadState, offsetWidth: nat, offsetHeight: nat): (t: PadState)
    ensures t.ink <= s.ink && t.signature == s.signature && t.isDrawing == s.isDrawing
  {
    if !s.listening then s
    else s.(width := offsetWidth, height := offsetHeight, ink := {}, path := [],
            lineWidth := PadLineWidth, lineCap := PadLineCap, strokeStyle := PadStrokeStyle)
  }

  class SignaturePad {
    var hasCanvas: bool
    var hasContext: bool
    var listening: bool
    var isDrawing: bool
    var path: seq<Point>
    var ink: set<Segment>
    var width: nat
    var height: nat
    var lineWidth: real
    var lineCap: string
    var strokeStyle: string
    var signature: string

    function State(): PadState
      reads this
    {
      PadState(hasCanvas, hasContext, listening, isDrawing, path, ink, width, height,
               lineWidth, lineCap, strokeStyle, signature)
    }

    /** Mounting the component and running its effect once. */
    constructor (canvasPresent: bool, contextAvailable: bool, offsetWidth: nat, offsetHeight: nat,
                 initialSignature: string)
      ensures State() == Mounted(canvasPresent, contextAvailable, offsetWidth, offsetHeight, initialSignature)
    {
      hasCanvas := canvasPresent;
      hasContext := contextAvailable;
      listening := false;
      isDrawing := false;
      path := [];
      ink := {};
      width := DefaultWidth;
      height := DefaultHeight;
      lineWidth := DefaultLineWidth;
      lineCap := DefaultLineCap;
      strokeStyle := DefaultStrokeStyle;
      signature := initialSignature;
      if canvasPresent {
        width := offsetWidth;
        height := offsetHeight;
        if contextAvailable {
          lineWidth := PadLineWidth;
          lineCap := PadLineCap;
          strokeStyle := PadStrokeStyle;
          listening := true;
        }
      }
    }

    method StartDrawing(e: PointerEvent, rect: Rect)
      requires WellFormed(e)
      modifies this
      ensures State() == Started(old(State()), e, rect)
    {
      if !hasCanvas {
        return;
      }
      if !hasContext {
        return;
      }
      isDrawing := true;
      var client := ClientPoint(e);
      path := [Point(client.x - rect.left, client.y - rect.top)];
    }

    method Draw(e: PointerEvent, rect: Rect)
      requires WellFormed(e)
      modifies this
      ensures State() == Drawn(old(State()), e, rect)
    {
      if !isDrawing {
        return;
      }
      if !hasCanvas {
        return;
      }
      if !hasContext {
        return;
      }
      var client := ClientPoint(e);
      path := path + [Point(client.x - rect.left, client.y - rect.top)];
      ink := ink + Segments(path);
    }

    method EndDrawing(encode: CanvasImage -> DataUrl)
      modifies this
      ensures State() == Ended(old(State()), encode)
    {
      isDrawing := false;
      if !hasCanvas {
        return;
      }
      var dataUrl := encode(CanvasImage(width, height, ink));
      signature := dataUrl;
    }

    method ClearSignature()
      modifies this
      ensures State() == Cleared(old(State()))
    {
      if !hasCanvas {
        return;
      }
      if !hasContext {
        return;
      }
      ink := {};
      signature := "";
    }

    method HandleResize(offsetWidth: nat, offsetHeight: nat)
      modifies this
      ensures State() == Resized(old(State()), offsetWidth, offsetHeight)
    {
      if !listening {
        return;
      }
      width := offsetWidth;
      height := offsetHeight;
      ink := {};
      path := [];
      lineWidth := PadLineWidth;
      lineCap := PadLineCap;
      strokeStyle := PadStrokeStyle;
    }
  }

  /** Mounting styles the pad and listens for resizes exactly when canvas and context exist;
      it never draws, never starts a stroke and leaves the signature as given. */
  lemma MountedSetup(canvasPresent: bool, contextAvailable: bool, w: nat, h: nat, signature: string)
    ensures var s := Mounted(canvasPresent, contextAvailable, w, h, signature);
      (Styled(s) <==> canvasPresent && contextAvailable)
      && (s.listening <==> canvasPresent && contextAvailable)
      && (canvasPresent ==> s.width == w && s.height == h)
      && !s.isDrawing && s.ink == {} && s.path == [] && s.signature == signature
  {
  }

  /** A stroke begins only when canvas and context exist, at the canvas point of the event;
      nothing painted and no signature changes. */
  lemma StartBeginsPath(s: PadState, e: PointerEvent, rect: Rect)
    requires WellFormed(e)
    ensures var t := Started(s, e, rect);
      (t.isDrawing <==> s.isDrawing || (s.hasCanvas && s.hasContext))
      && (s.hasCanvas && s.hasContext ==> t.path == [CanvasPoint(e, rect)])
      && (!s.hasCanvas || !s.hasContext ==> t == s)
      && t.ink == s.ink && t.signature == s.signature
  {
  }

  /** Outside a stroke, moving the pointer changes nothing. */
  lemma DrawIgnoredWhenNotDrawing(s: PadState, e: PointerEvent, rect: Rect)
    requires WellFormed(e) && !s.isDrawing
    ensures Drawn(s, e, rect) == s
  {
  }

  /** Extending a path by one point adds exactly the segment to that point. */
  lemma {:induction false} SegmentsSnoc(path: seq<Point>, p: Point)
    requires path != []
    ensures Segments(path + [p]) == Segments(path) + {Segment(path[|path| - 1], p)}
    decreases |path|
  {
    var q := path + [p];
    if |path| == 1 {
      assert q[1..] == [p];
    } else {
      assert q[1..] == path[1..] + [p];
      SegmentsSnoc(path[1..], p);
    }
  }

  /** During a stroke, a move keeps everything painted and paints the segment from the last
      point of the path to the event's canvas point; the signature is not touched. */
  lemma DrawExtendsStroke(s: PadState, e: PointerEvent, rect: Rect)
    requires WellFormed(e) && s.isDrawing && s.hasCanvas && s.hasContext && s.path != []
    ensures var t := Drawn(s, e, rect);
      t.path == s.path + [CanvasPoint(e, rect)]
      && t.ink == s.ink + Segments(s.path) + {Segment(s.path[|s.path| - 1], CanvasPoint(e, rect))}
      && t.signature == s.signature && t.isDrawing
  {
    SegmentsSnoc(s.path, CanvasPoint(e, rect));
  }

  /** Pressing at one point and moving to another paints the segment between their canvas
      points, whatever was on the pad before. */
  lemma PressThenMovePaints(s: PadState, down: PointerEvent, move: PointerEvent, rect: Rect)
    requires WellFormed(down) && WellFormed(move) && s.hasCanvas && s.hasContext
    ensures Segment(CanvasPoint(down, rect), CanvasPoint(move, rect)) in Drawn(Started(s, down, rect), move, rect).ink
    ensures s.ink <= Drawn(Started(s, down, rect), move, rect).ink
  {
    var started := Started(s, down, rect);
    DrawExtendsStroke(started, move, rect);
  }

  /** A touch event acts exactly as a mouse event at its first touch. */
  lemma TouchUsesFirstTouch(s: PadState, touches: seq<Point>, rect: Rect)
    requires |touches| > 0
    ensures Started(s, Touch(touches), rect) == Started(s, Mouse(touches[0].x, touches[0].y), rect)
    ensures Drawn(s, Touch(touches), rect) == Drawn(s, Mouse(touches[0].x, touches[0].y), rect)
  {
  }

  /** Ending always stops the stroke; with a canvas it replaces the signature by the
      encoding of the whole canvas, and otherwise leaves it. Nothing else changes. */
  lemma EndStopsAndEmits(s: PadState, encode: CanvasImage -> DataUrl)
    ensures var t := Ended(s, encode);
      !t.isDrawing
      && (s.hasCanvas ==> t.signature == encode(Image(s)) && t.signature != "")
      && (!s.hasCanvas ==> t.signature == s.signature)
      && t.ink == s.ink && t.path == s.path
  {
  }

  /** The pointer leaving a blank pad without any stroke still emits a signature, and the
      form then no longer reports the signature as missing. */
  lemma LeavingBlankPadSatisfiesForm(s: PadState, encode: CanvasImage -> DataUrl, ff: Form.FormFields)
    requires s.hasCanvas && !s.isDrawing && s.ink == {}
    ensures Ended(s, encode).signature != ""
    ensures !Form.Missing(ff.(signature := Ended(s, encode).signature), Form.Signature)
  {
  }

  /** Resetting the form ("Isi Form Lagi") empties its signature value but not the canvas:
      the pad never reads that value back, so its ink stays, and the next end of a stroke
      (the pointer leaving the pad is enough) emits the previous participant's drawing. */
  lemma ResetKeepsPreviousDrawing(s: PadState, encode: CanvasImage -> DataUrl)
    requires s.hasCanvas
    ensures var reset := s.(signature := Form.EmptyForm.signature);
      Form.Missing(Form.EmptyForm, Form.Signature) && reset.ink == s.ink
      && Ended(reset, encode).signature == encode(Image(s))
  {
  }

  /** Clearing with a canvas and a context erases the pad and empties the signature (which
      the form then reports as missing); clearing twice is clearing once. */
  lemma ClearErases(s: PadState, ff: Form.FormFields)
    ensures Cleared(Cleared(s)) == Cleared(s)
    ensures s.hasCanvas && s.hasContext ==>
      Cleared(s).ink == {} && Cleared(s).signature == ""
      && Form.Missing(ff.(signature := Cleared(s).signature), Form.Signature)
    ensures Cleared(s).isDrawing == s.isDrawing && Cleared(s).path == s.path
  {
  }

  /** Clearing in the middle of a stroke keeps the current path, so the next move strokes
      the erased part of that stroke again. */
  lemma ClearMidStrokeRepaints(s: PadState, e: PointerEvent, rect: Rect)
    requires WellFormed(e) && s.isDrawing && s.hasCanvas && s.hasContext && |s.path| >= 2
    ensures Segment(s.path[0], s.path[1]) in Drawn(Cleared(s), e, rect).ink
  {
    assert Segment(s.path[0], s.path[1]) in Segments(s.path);
    DrawExtendsStroke(Cleared(s), e, rect);
  }

  /** A resize takes the element's size, erases the bitmap and the path and puts the pad's
      style back, but the signature already emitted stays; a second resize to the same
      size changes nothing more. */
  lemma ResizeResets(s: PadState, w: nat, h: nat)
    ensures var t := Resized(s, w, h);
      (s.listening ==> t.width == w && t.height == h && Styled(t) && t.ink == {} && t.path == [])
      && (!s.listening ==> t == s)
      && t.signature == s.signature && t.isDrawing == s.isDrawing
      && Resized(t, w, h) == t
  {
  }
}

/** The canvas, `renderActiveImage` and the save button's guard. Pixels are
    not modelled: the canvas records the drawing commands issued on its 2D
    context. */
module Render {
  import opened Wrappers
  import opened Geometry
  import opened Gallery
  import Observable

  /** The value held by `paddingState`. */
  datatype PaddingSettings = PaddingSettings(padding: int, fillStyle: string)

  /** The state `paddingState` starts in. */
  const InitialPadding: PaddingSettings := PaddingSettings(2, "#ffffff")

  /** A command issued on the canvas's 2D context. */
  datatype Command =
    | ClearRect(area: Rect)
    | FillRect(area: Rect, color: string)
    | DrawImage(image: Image, target: Rect)

  /** The `<canvas>` element together with its 2D context. */
  class Canvas {
    /** `canvas.width` and `canvas.height`: the pixel buffer. */
    var width: nat
    var height: nat
    /** `canvas.style.width` and `canvas.style.height`, in CSS pixels;
        None while unset. */
    var styleWidth: Option<int>
    var styleHeight: Option<int>
    /** `canvas.dataset.fileName`; None while undefined. */
    var fileName: Option<string>
    /** `ctx.fillStyle`. */
    var fillStyle: string
    /** Every command issued on the context, oldest first. */
    var commands: seq<Command>

    /** The canvas as the page sets it up: a 600 x 600 buffer. */
    constructor ()
      ensures width == CanvasWidth && height == CanvasWidth
      ensures styleWidth == None && styleHeight == None && fileName == None
      ensures fillStyle == "#000000" && commands == []
    {
      width, height := CanvasWidth, CanvasWidth;
      styleWidth, styleHeight := None, None;
      fileName := None;
      fillStyle := "#000000";
      commands := [];
    }
  }

  /** The page's start-up state: no image is active and the padding level is
      valid, so the immediate renders registered on `imageState` and
      `paddingState` may run and draw nothing. */
  lemma InitialStateRendersNothing()
    ensures WellFormed(Initial) && ActiveImage(Initial).None?
    ensures ValidPadding(InitialPadding.padding)
    ensures CanRender(Initial, InitialPadding.padding)
  {
  }

  /** What `renderActiveImage` needs of the active image and padding level:
      nothing when no image is active. */
  predicate CanRender(g: Gallery, padding: int)
  {
    ActiveImage(g).Some? ==>
      Renderable(ActiveImage(g).value.naturalWidth, ActiveImage(g).value.naturalHeight) &&
      ValidPadding(padding)
  }

  /** `renderActiveImage()`: with no active image nothing changes; otherwise
      the canvas is resized to the image, filled entirely with the frame
      colour, and the image is drawn inset by the frame geometry. */
  method RenderActiveImage(imageState: Observable.State<Gallery>,
                           paddingState: Observable.State<PaddingSettings>,
                           canvas: Canvas)
    requires CanRender(imageState.current, paddingState.current.padding)
    modifies canvas
    ensures ActiveImage(imageState.current).None? ==> unchanged(canvas)
    ensures ActiveImage(imageState.current).Some? ==>
      var image := ActiveImage(imageState.current).value;
      var settings := paddingState.current;
      var f := FrameLayout(image.naturalWidth, image.naturalHeight, settings.padding);
      && canvas.fileName == Some(image.fileName)
      && canvas.styleWidth == Some(f.styleWidth) && canvas.styleHeight == Some(f.styleHeight)
      && canvas.width == f.canvasWidth && canvas.height == f.canvasHeight
      && canvas.fillStyle == settings.fillStyle
      && canvas.commands == old(canvas.commands) +
           [ClearRect(f.fill), FillRect(f.fill, settings.fillStyle), DrawImage(image, f.draw)]
  {
    var g := imageState.current;
    if !(0 <= g.activeIndex < |g.list|) {
      return;
    }
    var image := g.list[g.activeIndex];
    var w, h := image.naturalWidth, image.naturalHeight;
    canvas.fileName := Some(image.fileName);

    var heightRatio := HeightRatio(w, h);
    canvas.styleWidth := Some(CanvasWidth);
    canvas.styleHeight := Some(MathRound(CanvasWidth as real * heightRatio));

    canvas.width := w;
    canvas.height := h;

    var paddingModifier := PaddingModifiers[paddingState.current.padding - 1];
    var xAspect := 1.0;
    var yAspect := heightRatio;
    var xMod := xAspect * (PaddingMax - paddingModifier) as real;
    var yMod := yAspect * (PaddingMax - paddingModifier) as real;
    var paddingX := w as real / xMod;
    var paddingY := h as real / yMod;
    assert paddingX == PaddingX(w, paddingState.current.padding);
    assert paddingY == PaddingY(w, h, paddingState.current.padding);

    canvas.fillStyle := paddingState.current.fillStyle;
    var whole := Rect(0.0, 0.0, canvas.width as real, canvas.height as real);
    canvas.commands := canvas.commands + [ClearRect(whole)];
    canvas.commands := canvas.commands + [FillRect(whole, canvas.fillStyle)];
    canvas.commands := canvas.commands + [DrawImage(image, Rect(
      paddingX / 2.0,
      paddingY / 2.0,
      canvas.width as real - paddingX,
      canvas.height as real - paddingY))];
  }

  /** The prefix the saved file's name gets. */
  const SavePrefix: string := "framed_"

  /** A download the save button triggers. */
  datatype Download = Download(fileName: string, mimeType: string)

  /** How JavaScript turns `canvas.dataset.fileName` into text: an unset
      entry reads as `undefined`. */
  function FileNameText(name: Option<string>): string
  {
    match name
    case None => "undefined"
    case Some(n) => n
  }

  /** The save button's click handler: a JPEG download named after the
      canvas's file name, and only when an image index is set. */
  function SaveDownload(activeIndex: int, canvasFileName: Option<string>): (r: Option<Download>)
    ensures r.Some? <==> activeIndex > -1
    ensures r.Some? ==> r.value.mimeType == "image/jpeg"
    ensures r.Some? ==>
      && |r.value.fileName| == |SavePrefix| + |FileNameText(canvasFileName)|
      && r.value.fileName[..|SavePrefix|] == SavePrefix
      && r.value.fileName[|SavePrefix|..] == FileNameText(canvasFileName)
  {
    if activeIndex > -1 then
      Some(Download(SavePrefix + FileNameText(canvasFileName), "image/jpeg"))
    else
      None
  }
}

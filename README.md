# photo-framer, modelled in Dafny

photo-framer is a browser page that frames a photo. The user uploads images,
picks a frame colour and a padding level, and the page draws the active image
on a canvas, inset inside a border of that colour. The framed canvas can then
be saved as a JPEG. This project models the parts of `main.js` that hold logic:

- `wrappers.dfy` (`Wrappers`): `Option` and `Result`.
- `observable.dfy` (`Observable`): `useState`, the observable cell. It is the
  class `State<T>`, with the current value, the ordered watcher list and a
  ghost trace of every watcher call `(watcher, current, previous)`. Watchers are
  identified by ids. `Round` is the specification of one notification round.
- `geometry.dfy` (`Geometry`): `Math.round`, `round`, `getHeightRatio` and the
  padding arithmetic of `renderActiveImage`, on exact `real` numbers.
  `FrameLayout` gives everything the renderer sets for one image: buffer size,
  display size, fill rectangle and draw rectangle.
- `gallery.dfy` (`Gallery`): the `imageState` value, the active-image lookup,
  the `Promise.all` join over load outcomes, and the all-or-nothing upload
  commit of the file input's `onChange` handler.
- `render.dfy` (`Render`): the canvas as a class that records the commands
  issued on its 2D context, `renderActiveImage` as a method proved against
  `FrameLayout`, and the save button's guard and file name.

In this code a higher padding level gives a larger border. The divisor
`PADDING_MAX - modifier` falls from 39 at level 1 to 8 at level 5, so the inset
`dimension / divisor` grows (`PaddingXIncreasing`, `HigherLevelSmallerImage`).

The y inset is `h / (round(h/w) * divisor)`, which is about `w / divisor`.
That is the x inset, so the border is as wide at the top and bottom as at the
sides (`UniformBorder`, exact when `h/w` has at most two decimals). The y
inset reaches the image's height exactly when `round(h/w) × divisor <= 1`;
the image is then drawn with a height that is zero or negative
(`PaddingYBelowHeight`, `PanoramaCollapses`). Roughly, these are images more
than `divisor` times wider than tall. Because `round` can round up, this is
only an approximation near the threshold: a 3937 × 100 image at level 1 has
`round(h/w) = 0.03`, `0.03 × 39 > 1`, and a positive drawn height
(`RoundingUpKeepsHeight`). If the image is more than 200
times wider than tall, the rounded ratio is 0 and the source divides by zero.
The model instead requires a positive ratio (`Renderable`, `HeightRatioPositive`).

The saved file's name comes from `canvas.dataset.fileName`, which is written
by the last render, not from the gallery. The model keeps that. An unset name
reads as `undefined`, as in JavaScript.

## Model

| member | source | states |
|---|---|---|
| Observable.State.constructor | main.js:187-190 | a new cell holds the initial value, has no watchers, and has made no calls |
| Observable.State.Update | main.js:196-202 | the value becomes the new one and the watcher list is unchanged; the trace grows by exactly one notification round over the registered watchers, with `(new, previous)` |
| Observable.State.Watch | main.js:203-208 | the watcher is appended to the end of the list and the value does not change; with `immediate` there is exactly one call `(current, null)`, and without it there is none |
| Observable.RoundOrder | main.js:199-201 | a round makes one call per registration, in registration order; the k-th call goes to the k-th watcher with the new and the previous value |
| Observable.RoundCallsEachOnce | main.js:199-201 | in a round, each watcher is called exactly as many times as it is registered: once per registration, and never if it is unregistered |
| Observable.UpdateCallsEachOnce | main.js:196-202 | after an update, each watcher's call count has grown by exactly its number of registrations |
| Geometry.MathRound | main.js:284-286 | `Math.round(x)` is the integer within half a unit of x, with halves rounded up |
| Geometry.MathRoundUnique | main.js:285 | any integer n with `x - 0.5 < n <= x + 0.5` is `Math.round(x)` |
| Geometry.MathRoundMonotone | main.js:285 | `Math.round` is monotone |
| Geometry.Round2 | main.js:284-286 | `round(x)` is within 0.005 of x and has at most two decimals |
| Geometry.HeightRatio | main.js:280-282 | the height ratio is non-negative and within 0.005 of height / width |
| Geometry.HeightRatioPositive | main.js:280-286 | the height ratio is positive exactly when `200 * h >= w`; otherwise the y inset divides by zero |
| Geometry.Divisor | main.js:161-167 | for a level in 1..5, `PADDING_MAX - modifier` is one of 39, 26, 18, 13, 8 and is at least 8 |
| Geometry.DivisorDecreasing | main.js:161 | a higher padding level gives a strictly smaller divisor |
| Geometry.PaddingX | main.js:163-169 | for a positive width, the x inset is positive and smaller than the width, and inset × divisor = width |
| Geometry.PaddingXIncreasing | main.js:161-169 | a higher padding level gives a strictly larger x inset |
| Geometry.PaddingY | main.js:164-170 | the y inset is positive for a positive height, and inset × ratio × divisor = height |
| Geometry.PaddingYBelowHeight | main.js:167-170 | the y inset is below the height if and only if ratio × divisor > 1 |
| Geometry.UniformBorder | main.js:163-170 | when the height ratio is exact, the y inset equals the x inset |
| Geometry.FrameLayout | main.js:150-182 | the buffer is exactly w × h; the display width is 600; the fill covers the whole buffer; the image is centred on both axes, with a positive border on the left, right, top and bottom; its drawn height is positive iff ratio × divisor > 1; the draw origin is half the x inset and half the y inset |
| Geometry.DisplayHeightExact | main.js:155-156 | the display height `Math.round(600 * round(h/w))` is exactly 6 × `Math.round(100 h / w)` |
| Geometry.DisplayHeightProportional | main.js:155-156 | the display height is within 3 CSS pixels of 600 × h / w |
| Geometry.HigherLevelSmallerImage | main.js:161-182 | raising the padding level strictly shrinks the drawn image on both axes |
| Geometry.PortraitScenario | main.js:153-182 | a 1200 × 1800 image at level 1 is drawn at (1200/78, 1200/78) with size (1200 − 1200/39) × (1800 − 1200/39) |
| Geometry.PanoramaCollapses | main.js:167-182 | a 1000 × 10 image at level 1 is drawn with a negative height |
| Geometry.RoundingUpKeepsHeight | main.js:167-182 | a 3937 × 100 image at level 1 is more than 39 times wider than tall but is drawn with a positive height, because its ratio rounds up to 0.03 |
| Gallery.ActiveImage | main.js:147-149 | `list[activeIndex]` is defined exactly when the index is in range, and is then the element at `activeIndex` |
| Gallery.ActiveImageWellFormed | main.js:147-149 | in a well-formed gallery, no image is active exactly when the index is -1 |
| Gallery.JoinAll | main.js:54-62 | the join succeeds iff every load succeeded, and then gives the images in file order; a failure carries the error of a failed load |
| Gallery.UploadCommit | main.js:49-66 | a commit happens iff the selection is non-empty and every load succeeded; it then sets `activeIndex` 0 and the images in file order |
| Gallery.UploadShowsFirstFile | main.js:60-63 | a committed gallery is well formed, and its active image is the first selected file |
| Gallery.OnFilesChange | main.js:48-66 | an empty selection or a failed load leaves `imageState` unchanged, with no watcher call; otherwise there is one update with the committed gallery, which notifies every watcher |
| Render.Canvas.constructor | main.js:9-14 | the canvas starts with a 600 × 600 buffer, no style size, no file name and no commands |
| Render.InitialStateRendersNothing | main.js:19-30 | the initial `imageState` is well formed with no active image, and the initial padding level is valid, so the immediate renders at start-up meet `RenderActiveImage`'s precondition and draw nothing |
| Render.RenderActiveImage | main.js:145-184 | with no active image, the canvas is unchanged; otherwise its file name, style size and buffer size are set from `FrameLayout`, and it issues exactly clear, fill and draw, with the fill colour and `FrameLayout`'s rectangles |
| Render.SaveDownload | main.js:132-138 | a download happens iff `activeIndex > -1`; it is a JPEG named `framed_` followed by the canvas's file name, which can be recovered from the download's name |

## Left out

- `loadImage` (main.js:217-237): reading and decoding files uses the platform's FileReader and Image. The model takes each file's load outcome as input (`LoadResult`).
- The asynchronous fan-out and join (main.js:53-63) are modelled as a pure join over settled outcomes. Timing, and overlapping batches where the last one to finish wins, are not modelled.
- Gallery.JoinAll: reports the first failure in file order. `Promise.all` rejects with the first failure to settle. The error is only logged (`console.error`), so only its presence matters.
- What a watcher does when called is not modelled. In particular, a watcher that calls `update` or `watch` again during `forEach` is not modelled. The module-level registrations (main.js:16-42) are therefore not connected to `RenderActiveImage`.
- DOM construction and control wiring are not modelled: `createInput`, the `setup*Control` functions, the slider and colour `onInput` handlers, and the container background watcher (main.js:32-37, 77-122, 249-278).
- Pixels are not modelled. The canvas records `clearRect`/`fillRect`/`drawImage` calls, and the browser's clearing of the buffer when `canvas.width` is set is left out. `canvas.toDataURL` encoding and the `a.click()` download (main.js:134-137) become the `Download` value.
- Floating point is not modelled: the geometry uses exact reals. `Math.round(x)` is written as `Floor(x + 0.5)`.
- Render.RenderActiveImage: requires a positive width, a positive height ratio and a padding level in 1..5 when an image is active. In the source, a zero width or ratio gives Infinity or NaN, and a level outside 1..5 reads past the modifier table and gives NaN. None of these is guarded.
- Unsubscribing a watcher is not modelled, because `useState` has no such operation.

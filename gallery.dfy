/** The image state (`imageState`) and the upload commit of the file input's
    `onChange` handler. File reading and decoding (`loadImage`) are outside
    the model: each selected file arrives as the outcome of its load. */
module Gallery {
  import opened Wrappers
  import Observable

  /** A decoded image with the metadata `loadImage` attaches to it. */
  datatype Image = Image(naturalWidth: nat, naturalHeight: nat, fileName: string, fileSize: nat)

  /** The value held by `imageState`; `activeIndex` is -1 when nothing is
      selected. */
  datatype Gallery = Gallery(activeIndex: int, list: seq<Image>)

  /** The state `imageState` starts in. */
  const Initial: Gallery := Gallery(-1, [])

  /** Why `loadImage` rejected: the file could not be read, or the image
      could not be decoded. */
  datatype LoadError = ReadFailed | DecodeFailed

  /** The settled outcome of one `loadImage` promise. */
  datatype LoadResult = Loaded(image: Image) | Failed(error: LoadError)

  /** `activeIndex` is -1 or indexes the list. */
  predicate WellFormed(g: Gallery)
  {
    g.activeIndex == -1 || 0 <= g.activeIndex < |g.list|
  }

  /** `list[activeIndex]`: undefined for -1 and for any index out of range. */
  function ActiveImage(g: Gallery): (r: Option<Image>)
    ensures r.Some? <==> 0 <= g.activeIndex < |g.list|
    ensures r.Some? ==> r.value == g.list[g.activeIndex]
  {
    if 0 <= g.activeIndex < |g.list| then Some(g.list[g.activeIndex]) else None
  }

  /** In a well-formed gallery an image is active exactly when the index is
      not -1. */
  lemma ActiveImageWellFormed(g: Gallery)
    requires WellFormed(g)
    ensures ActiveImage(g).None? <==> g.activeIndex == -1
  {
  }

  /** `Promise.all` over the loads: every image in file order, or a failure
      if any load failed. */
  function JoinAll(rs: seq<LoadResult>): (r: Result<seq<Image>, LoadError>)
    ensures r.Success? <==> forall i :: 0 <= i < |rs| ==> rs[i].Loaded?
    ensures r.Success? ==> |r.value| == |rs|
    ensures r.Success? ==> forall i :: 0 <= i < |rs| ==> r.value[i] == rs[i].image
    ensures r.Failure? ==> Failed(r.error) in rs
  {
    if rs == [] then Success([])
    else match rs[0]
      case Failed(e) => Failure(e)
      case Loaded(img) =>
        match JoinAll(rs[1..])
        case Failure(e) => Failure(e)
        case Success(imgs) => Success([img] + imgs)
  }

  /** The new `imageState` value an upload commits, or None when the state
      is left alone: no files were selected, or some load failed. */
  function UploadCommit(rs: seq<LoadResult>): (r: Option<Gallery>)
    ensures r.Some? <==> |rs| > 0 && forall i :: 0 <= i < |rs| ==> rs[i].Loaded?
    ensures r.Some? ==> r.value.activeIndex == 0 && |r.value.list| == |rs|
    ensures r.Some? ==> forall i :: 0 <= i < |rs| ==> r.value.list[i] == rs[i].image
  {
    if |rs| == 0 then None
    else match JoinAll(rs)
      case Failure(_) => None
      case Success(imgs) => Some(Gallery(0, imgs))
  }

  /** A committed upload is well formed and shows the first selected file. */
  lemma UploadShowsFirstFile(rs: seq<LoadResult>)
    requires UploadCommit(rs).Some?
    ensures WellFormed(UploadCommit(rs).value)
    ensures ActiveImage(UploadCommit(rs).value) == Some(rs[0].image)
  {
  }

  /** The `onChange` handler once every load has settled: on success one
      `update` with the new gallery, otherwise no update and no watcher call. */
  method OnFilesChange(imageState: Observable.State<Gallery>, rs: seq<LoadResult>)
    modifies imageState
    ensures UploadCommit(rs).None? ==> unchanged(imageState)
    ensures UploadCommit(rs).Some? ==>
      && imageState.current == UploadCommit(rs).value
      && imageState.watchers == old(imageState.watchers)
      && imageState.trace == old(imageState.trace)
           + Observable.Round(old(imageState.watchers), UploadCommit(rs).value, Some(old(imageState.current)))
  {
    if |rs| == 0 {
      return;
    }
    var joined := JoinAll(rs);
    if joined.Success? {
      imageState.Update(Gallery(0, joined.value));
    }
  }
}

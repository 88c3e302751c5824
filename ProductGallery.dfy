/** The selection rules of the product gallery: which product images belong to the
    selected variant, which of them is shown first, when zoom is allowed, how the
    gallery renders and when the thumbnail fades show. */
module ProductGallery {
  import opened Wrappers

  const ThumbnailsCount := 6

  /** A product image; a missing id, variant id, width or height is `None`. */
  datatype Image = Image(id: Option<string>, variantId: Option<string>, width: Option<int>, height: Option<int>)

  // ---------------------------------------------------------------------------
  // Variant images
  // ---------------------------------------------------------------------------

  /** `product.variants.find((variant) => variant.id === image.variantId)`, as the id
      found: a missing variant id matches no variant. */
  function LinkedVariant(variantIds: seq<string>, image: Image): (r: Option<string>)
    ensures r.Some? <==> image.variantId.Some? && image.variantId.value in variantIds
    ensures r.Some? ==> r.value == image.variantId.value
  {
    match image.variantId
    case None => None
    case Some(v) => if v in variantIds then Some(v) else None
  }

  /** `linkedVariant == null || linkedVariant.id === variantId`: an image is shown
      exactly when it has no variant id, names an unknown variant, or names the
      selected one. */
  predicate Shown(variantIds: seq<string>, variantId: string, image: Image): (r: bool)
    ensures r <==> image.variantId.None? || image.variantId.value !in variantIds || image.variantId == Some(variantId)
  {
    var linked := LinkedVariant(variantIds, image);
    linked.None? || linked.value == variantId
  }

  /** `useVariantImages`: the shown images, in order. */
  function VariantImages(variantIds: seq<string>, variantId: string, images: seq<Image>): (r: seq<Image>)
    ensures |r| <= |images|
    ensures forall i :: 0 <= i < |r| ==> r[i] in images && Shown(variantIds, variantId, r[i])
    ensures forall i :: 0 <= i < |images| && Shown(variantIds, variantId, images[i]) ==> images[i] in r
  {
    if images == [] then []
    else
      var rest := VariantImages(variantIds, variantId, images[1..]);
      assert forall i :: 1 <= i < |images| ==> images[i] == images[1..][i - 1];
      if Shown(variantIds, variantId, images[0]) then [images[0]] + rest else rest
  }

  /** The filter keeps the original order: it distributes over concatenation. */
  lemma {:induction false} VariantImagesAppend(variantIds: seq<string>, variantId: string, a: seq<Image>, b: seq<Image>)
    ensures VariantImages(variantIds, variantId, a + b)
      == VariantImages(variantIds, variantId, a) + VariantImages(variantIds, variantId, b)
  {
    if a == [] {
      assert a + b == b;
    } else {
      assert (a + b)[1..] == a[1..] + b;
      VariantImagesAppend(variantIds, variantId, a[1..], b);
    }
  }

  // ---------------------------------------------------------------------------
  // Current image index
  // ---------------------------------------------------------------------------

  /** `selectedImageId ?? variantImages[0]?.id`. */
  function CurrentImageId(images: seq<Image>, selectedImageId: Option<string>): (r: Option<string>)
    ensures selectedImageId.Some? ==> r == selectedImageId
    ensures selectedImageId.None? && images != [] ==> r == images[0].id
    ensures selectedImageId.None? && images == [] ==> r.None?
  {
    match selectedImageId
    case Some(id) => Some(id)
    case None => if images == [] then None else images[0].id
  }

  /** `findIndex`: the first image with the id, or -1. */
  function FindIndex(images: seq<Image>, id: Option<string>): (r: int)
    ensures -1 <= r < |images|
    ensures r >= 0 ==> images[r].id == id
    ensures forall k :: 0 <= k < |images| && (r < 0 || k < r) ==> images[k].id != id
  {
    if images == [] then -1
    else if images[0].id == id then 0
    else
      var r := FindIndex(images[1..], id);
      if r < 0 then -1 else r + 1
  }

  /** `useCurrentImageIndex`. */
  function CurrentImageIndex(images: seq<Image>, selectedImageId: Option<string>): (r: nat)
    ensures images == [] ==> r == 0
    ensures images != [] ==> r < |images|
    ensures r > 0 ==> images[r].id == CurrentImageId(images, selectedImageId)
  {
    var index := FindIndex(images, CurrentImageId(images, selectedImageId));
    if index >= 0 then index else 0
  }

  /** The index is the first position of the current id, and 0 when no image has it. */
  lemma CurrentImageIndexIsFirst(images: seq<Image>, selectedImageId: Option<string>)
    ensures var id := CurrentImageId(images, selectedImageId);
      var r := CurrentImageIndex(images, selectedImageId);
      && (forall k :: 0 <= k < r ==> images[k].id != id)
      && (r == 0 && images != [] && images[0].id != id ==> forall k :: 0 <= k < |images| ==> images[k].id != id)
  {
  }

  /** Without a selected id, the first image is shown. */
  lemma CurrentImageIndexDefault(images: seq<Image>)
    ensures CurrentImageIndex(images, None) == 0
  {
  }

  // ---------------------------------------------------------------------------
  // Zoom, render mode and fades
  // ---------------------------------------------------------------------------

  /** `!width || !height || width * height < containerWidth * containerHeight`. */
  predicate TooSmall(image: Image, containerWidth: int, containerHeight: int): (r: bool)
    ensures image.width.None? || image.height.None? ==> r
    ensures !r <==> && image.width.Some? && image.width.value != 0 && image.height.Some? && image.height.value != 0
                    && image.width.value * image.height.value >= containerWidth * containerHeight
  {
    || image.width.None? || image.width.value == 0
    || image.height.None? || image.height.value == 0
    || image.width.value * image.height.value < containerWidth * containerHeight
  }

  /** An image too small for a container is too small for every container at least
      as wide and as high. */
  lemma TooSmallForLargerContainer(image: Image, width: int, height: int, width': int, height': int)
    requires 0 <= width <= width' && 0 <= height <= height'
    requires TooSmall(image, width, height)
    ensures TooSmall(image, width', height')
  {
    if image.width.Some? && image.width.value != 0 && image.height.Some? && image.height.value != 0 {
      MulMonotone(width, height, width', height');
    }
  }

  lemma MulMonotone(a: int, b: int, a': int, b': int)
    requires 0 <= a <= a' && 0 <= b <= b'
    ensures a * b <= a' * b'
  {
    assert a * b <= a' * b by {
      assert (a' - a) * b >= 0;
    }
    assert a' * b <= a' * b' by {
      assert a' * (b' - b) >= 0;
    }
  }

  /** `!product.images.find(TooSmall)`: zoom is allowed when no image is too small
      for the container. */
  function ZoomAllowed(images: seq<Image>, containerWidth: int, containerHeight: int): (r: bool)
    ensures r <==> forall i :: 0 <= i < |images| ==> !TooSmall(images[i], containerWidth, containerHeight)
  {
    if images == [] then true
    else
      assert forall i :: 1 <= i < |images| ==> images[i] == images[1..][i - 1];
      !TooSmall(images[0], containerWidth, containerHeight) && ZoomAllowed(images[1..], containerWidth, containerHeight)
  }

  /** Zoom requires every image to have a non-zero width and height and an area at
      least the container's. */
  lemma ZoomAllowedMeansLargeEnough(images: seq<Image>, containerWidth: int, containerHeight: int, i: int)
    requires ZoomAllowed(images, containerWidth, containerHeight) && 0 <= i < |images|
    ensures images[i].width.Some? && images[i].width.value != 0
    ensures images[i].height.Some? && images[i].height.value != 0
    ensures images[i].width.value * images[i].height.value >= containerWidth * containerHeight
  {
    assert !TooSmall(images[i], containerWidth, containerHeight);
  }

  /** The zoom state after a resize: off when zoom is not requested or there is no
      container, else `ZoomAllowed`. */
  function InnerEnableZoom(enableZoom: bool, container: Option<(int, int)>, images: seq<Image>): (r: bool)
    ensures r <==> enableZoom && container.Some?
                   && forall i :: 0 <= i < |images| ==> !TooSmall(images[i], container.value.0, container.value.1)
  {
    enableZoom && container.Some? && ZoomAllowed(images, container.value.0, container.value.1)
  }

  datatype RenderMode = Carousel | SingleImage | Placeholder

  function RenderModeOf(imageCount: nat): (r: RenderMode)
    ensures r == Carousel <==> imageCount > 1
    ensures r == SingleImage <==> imageCount == 1
    ensures r == Placeholder <==> imageCount == 0
  {
    if imageCount > 1 then Carousel else if imageCount == 1 then SingleImage else Placeholder
  }

  /** The thumbnail strip with the visibility of its left and right fades. */
  datatype Thumbnails = Thumbnails(leftFade: bool, rightFade: bool)

  function ThumbnailsOf(showThumbnails: bool, imageCount: nat, snapIndex: int): (r: Option<Thumbnails>)
    ensures r.Some? <==> showThumbnails && imageCount > 1
    ensures r.Some? ==> (r.value.leftFade <==> snapIndex > 0 && imageCount > ThumbnailsCount)
    ensures r.Some? ==> (r.value.rightFade <==> imageCount - snapIndex - 1 >= ThumbnailsCount)
  {
    if showThumbnails && imageCount > 1 then
      Some(Thumbnails(snapIndex > 0 && imageCount > ThumbnailsCount, imageCount - snapIndex - 1 >= ThumbnailsCount))
    else None
  }

  /** When all thumbnails fit, neither fade shows at any snap position. */
  lemma NoFadesWhenAllFit(imageCount: nat, snapIndex: nat)
    requires 1 < imageCount <= ThumbnailsCount
    ensures ThumbnailsOf(true, imageCount, snapIndex) == Some(Thumbnails(false, false))
  {
  }

  /** At the first snap position only the right fade can show, and it does when
      more thumbnails exist than fit. */
  lemma FadesAtStart(imageCount: nat)
    requires imageCount > 1
    ensures ThumbnailsOf(true, imageCount, 0) == Some(Thumbnails(false, imageCount > ThumbnailsCount))
  {
  }
}

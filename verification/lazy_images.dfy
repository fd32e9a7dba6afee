/**
 * The image lazy-loading observer at the end of script.js: every image is observed;
 * when an observed image intersects, its `src` becomes its `data-src` (if that is
 * non-empty), its `lazy` class is removed and it is no longer observed.
 */
module LazyImages {
  import opened Wrappers
  import opened Observers

  /**
   * An `img`: its `src`, its `data-src` attribute (absent or a string), whether it
   * has class `lazy`, and whether the observer watches it.
   */
  datatype Image = Image(src: string, dataSrc: Option<string>, lazy: bool, observed: bool)

  /** JavaScript truthiness of `img.dataset.src`: absent and empty are both false. */
  predicate HasDataSrc(img: Image) {
    img.dataSrc.Some? && img.dataSrc.value != ""
  }

  /**
   * The callback's effect on one intersecting image:
   * `img.src = img.dataset.src || img.src`, remove `lazy`, unobserve.
   */
  function Load(img: Image): Image {
    img.(src := if HasDataSrc(img) then img.dataSrc.value else img.src, lazy := false, observed := false)
  }

  /** A loaded image shows its `data-src`, or keeps its `src` when there is none to show. */
  lemma LoadSource(img: Image)
    ensures !Load(img).lazy && !Load(img).observed && Load(img).dataSrc == img.dataSrc
    ensures HasDataSrc(img) ==> Load(img).src == img.dataSrc.value
    ensures !HasDataSrc(img) ==> Load(img).src == img.src
  {
  }

  /** Loading an image twice is loading it once. */
  lemma LoadIdempotent(img: Image)
    ensures Load(Load(img)) == Load(img)
  {
  }

  /** The images after one callback: exactly the intersecting ones are loaded. */
  ghost predicate LoadedBy(before: seq<Image>, after: seq<Image>, entries: seq<Entry>) {
    |after| == |before| &&
    forall k | 0 <= k < |before| ::
      after[k] == if k in IntersectingTargets(entries) then Load(before[k]) else before[k]
  }

  class LazyImages {
    /** The document's images, in document order. */
    var images: seq<Image>

    /** `document.querySelectorAll('img').forEach(img => imageObserver.observe(img))`. */
    constructor (images: seq<Image>)
      ensures |this.images| == |images|
      ensures forall k | 0 <= k < |images| :: this.images[k] == images[k].(observed := true)
    {
      this.images := seq(|images|, k requires 0 <= k < |images| => images[k].(observed := true));
    }

    /** The observer callback. */
    method OnIntersection(entries: seq<Entry>)
      requires forall k | 0 <= k < |entries| :: entries[k].target < |images|
      modifies this
      ensures LoadedBy(old(images), images, entries)
    {
      var i := 0;
      while i < |entries|
        invariant 0 <= i <= |entries|
        invariant LoadedBy(old(images), images, entries[..i])
      {
        var entry := entries[i];
        assert entries[..i + 1][..i] == entries[..i];
        if entry.isIntersecting {
          var t := entry.target;
          LoadIdempotent(old(images)[t]);
          images := images[t := Load(images[t])];
        }
        i := i + 1;
      }
      assert entries[..i] == entries;
    }
  }
}

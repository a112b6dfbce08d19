/**
  The product image gallery (`initImageGallery`, js/main.js:279-397).

  The thumbnails and the dots are two fixed lists of elements whose `active`
  class the gallery rewrites in place; here each list is an array of flags.
  `updateGallery` settles on an image index with wrap-around at both ends,
  marks exactly that thumbnail and the dot whose group holds the image.
*/
module Gallery {
  import opened Flags

  /** The sources the gallery cycles through: the thumbnails' image sources with the empty ones dropped. */
  function NonEmptySources(sources: seq<string>): (images: seq<string>)
    ensures |images| <= |sources|
    ensures forall x :: x in images <==> x in sources && x != ""
    ensures forall x :: x != "" ==> multiset(images)[x] == multiset(sources)[x]
    ensures multiset(images)[""] == 0
  {
    if sources == [] then []
    else
      var rest := NonEmptySources(sources[1..]);
      assert sources == [sources[0]] + sources[1..];
      if sources[0] == "" then rest else [sources[0]] + rest
  }

  /**
    The filter keeps order: filtering two lists one after the other gives the
    filtered lists one after the other. With the one-element case (a source is
    kept exactly when it is not empty) this determines the filter completely.
  */
  lemma {:induction false} NonEmptySourcesAppend(a: seq<string>, b: seq<string>)
    ensures NonEmptySources(a + b) == NonEmptySources(a) + NonEmptySources(b)
  {
    if a == [] {
      assert a + b == b;
    } else {
      assert (a + b)[0] == a[0];
      assert (a + b)[1..] == a[1..] + b;
      NonEmptySourcesAppend(a[1..], b);
      if a[0] != "" {
        assert [a[0]] + (NonEmptySources(a[1..]) + NonEmptySources(b))
            == ([a[0]] + NonEmptySources(a[1..])) + NonEmptySources(b);
      }
    }
  }

  /** `Math.ceil(a / b)`: the least q with q * b >= a. */
  function CeilDiv(a: nat, b: nat): (q: nat)
    requires b > 0
    ensures q * b >= a
    ensures q > 0 ==> (q - 1) * b < a
  {
    (a + b - 1) / b
  }

  /**
    The image `updateGallery(index)` settles on: an index past the end goes
    to the first image, a negative one to the last image, any other is kept.
  */
  function WrapIndex(index: int, total: nat): (r: nat)
    requires total > 0
    ensures r < total
    ensures 0 <= index < total ==> r == index
    ensures index >= total ==> r == 0
    ensures index < 0 ==> r == total - 1
  {
    if index >= total then 0
    else if index < 0 then total - 1
    else index
  }

  /** The number of images each dot stands for. */
  function ImagesPerDot(total: nat, dots: nat): (n: nat)
    requires total > 0 && dots > 0
    ensures n > 0
    ensures n * dots >= total
    ensures (n - 1) * dots < total
  {
    CeilDiv(total, dots)
  }

  /** The dot that stands for image `current`: it is always one of the dots, and its group holds the image. */
  function DotIndex(current: nat, total: nat, dots: nat): (d: nat)
    requires current < total && dots > 0
    ensures d < dots
    ensures d * ImagesPerDot(total, dots) <= current < (d + 1) * ImagesPerDot(total, dots)
  {
    var per := ImagesPerDot(total, dots);
    assert current / per < dots && (current / per) * per <= current < (current / per + 1) * per by {
      DotGroup(current, per, dots);
    }
    current / per
  }

  lemma DivBounds(a: nat, b: nat)
    requires b > 0
    ensures (a / b) * b <= a < (a / b + 1) * b
  {
  }

  /** Image `a` falls in group `a / b` of `b` images, one of the `n` groups that hold fewer than `n * b` images. */
  lemma DotGroup(a: nat, b: nat, n: nat)
    requires b > 0 && a < n * b
    ensures a / b < n
    ensures (a / b) * b <= a < (a / b + 1) * b
  {
    DivBounds(a, b);
    if a / b >= n {
      MulMonotone(n, a / b, b);
      assert false;
    }
  }

  lemma MulMonotone(x: nat, y: nat, m: nat)
    requires x <= y
    ensures x * m <= y * m
  {
  }

  /** The image a dot click asks for: the first image of that dot's group. */
  function DotTarget(dot: nat, total: nat, dots: nat): (index: nat)
    requires total > 0 && dots > 0
    ensures index / ImagesPerDot(total, dots) == dot
    ensures index % ImagesPerDot(total, dots) == 0
  {
    var per := ImagesPerDot(total, dots);
    MulDivCancel(dot, per);
    dot * per
  }

  lemma MulDivCancel(x: nat, m: nat)
    requires m > 0
    ensures (x * m) / m == x
    ensures (x * m) % m == 0
  {
    var q := (x * m) / m;
    DivBounds(x * m, m);
    if q < x {
      MulMonotone(q + 1, x, m);
      assert false;
    } else if q > x {
      MulMonotone(x + 1, q, m);
      assert false;
    }
  }

  /**
    Clicking dot j activates dot j when its first image exists; otherwise the
    requested index is past the end and wraps to the first image, so dot 0
    lights up instead. The wrap is not modular arithmetic.
  */
  lemma DotClickLandsOn(dot: nat, total: nat, dots: nat)
    requires total > 0 && dot < dots
    ensures DotIndex(WrapIndex(DotTarget(dot, total, dots), total), total, dots)
         == if DotTarget(dot, total, dots) < total then dot else 0
  {
    var per := ImagesPerDot(total, dots);
    var target := DotTarget(dot, total, dots);
    if target < total {
      assert target / per == dot;
    } else {
      assert 0 / per == 0;
    }
  }

  /** "Next" then "previous" comes back to the same image, at the last image too. */
  lemma NextThenPrev(current: nat, total: nat)
    requires current < total
    ensures WrapIndex(WrapIndex(current + 1, total) - 1, total) == current
  {
  }

  /** "Previous" then "next" comes back to the same image, at the first image too. */
  lemma PrevThenNext(current: nat, total: nat)
    requires current < total
    ensures WrapIndex(WrapIndex(current - 1, total) + 1, total) == current
  {
  }

  class ImageGallery {
    /** The images the gallery cycles through, and their number. */
    const images: seq<string>
    const totalImages: nat
    /** The `active` class of each `.product__thumbnail` and of each `.product__dot`. */
    const thumbnails: array<bool>
    const dots: array<bool>
    var currentIndex: int

    ghost predicate Valid()
      reads this
    {
      totalImages == |images| > 0 &&
      totalImages <= thumbnails.Length &&
      thumbnails != dots &&
      0 <= currentIndex < totalImages
    }

    /** The thumbnail and dot flags as they stand after `updateGallery` has run at least once. */
    ghost predicate Marked()
      reads this, thumbnails, dots
      requires Valid()
    {
      OnlyActive(thumbnails[..], currentIndex) &&
      (dots.Length > 0 ==> OnlyActive(dots[..], DotIndex(currentIndex, totalImages, dots.Length)))
    }

    constructor(sources: seq<string>, thumbnails: array<bool>, dots: array<bool>)
      requires |sources| == thumbnails.Length
      requires NonEmptySources(sources) != []
      requires thumbnails != dots
      ensures Valid()
      ensures this.images == NonEmptySources(sources) && currentIndex == 0
      ensures this.thumbnails == thumbnails && this.dots == dots
    {
      images := NonEmptySources(sources);
      totalImages := |NonEmptySources(sources)|;
      this.thumbnails := thumbnails;
      this.dots := dots;
      currentIndex := 0;
    }

    /**
      `initImageGallery`: no gallery is set up when the page lacks the main
      image or when no thumbnail holds an image with a source.
    */
    static method Init(hasMainImage: bool, sources: seq<string>, thumbnails: array<bool>, dots: array<bool>)
      returns (g: ImageGallery?)
      requires |sources| == thumbnails.Length
      requires thumbnails != dots
      ensures g == null <==> !hasMainImage || thumbnails.Length == 0 || NonEmptySources(sources) == []
      ensures g != null ==> fresh(g) && g.Valid() && g.currentIndex == 0 && g.images == NonEmptySources(sources)
      ensures g != null ==> g.thumbnails == thumbnails && g.dots == dots
    {
      if !hasMainImage || thumbnails.Length == 0 {
        return null;
      }
      if NonEmptySources(sources) == [] {
        return null;
      }
      g := new ImageGallery(sources, thumbnails, dots);
    }

    /**
      `updateGallery(index)`: settle on the wrapped index, then mark exactly
      that thumbnail and, when there are dots, exactly the dot standing for it.
    */
    method UpdateGallery(index: int)
      requires Valid()
      modifies this`currentIndex, thumbnails, dots
      ensures Valid() && Marked()
      ensures currentIndex == WrapIndex(index, totalImages)
    {
      var current := WrapIndex(index, totalImages);
      currentIndex := current;

      for i := 0 to thumbnails.Length
        invariant currentIndex == current
        invariant forall k :: 0 <= k < i ==> thumbnails[k] == (k == currentIndex)
      {
        thumbnails[i] := i == currentIndex;
      }

      if dots.Length > 0 {
        var dotIndex := currentIndex / ImagesPerDot(totalImages, dots.Length);
        assert dotIndex == DotIndex(currentIndex, totalImages, dots.Length);
        for j := 0 to dots.Length
          invariant currentIndex == current
          invariant forall k :: 0 <= k < j ==> dots[k] == (k == dotIndex)
          invariant forall k :: 0 <= k < thumbnails.Length ==> thumbnails[k] == (k == currentIndex)
        {
          dots[j] := j == dotIndex;
        }
      }
    }

    /** A thumbnail click asks for that thumbnail's position in the list. */
    method ClickThumbnail(position: nat)
      requires Valid() && position < thumbnails.Length
      modifies this`currentIndex, thumbnails, dots
      ensures Valid() && Marked()
      ensures currentIndex == WrapIndex(position, totalImages)
    {
      UpdateGallery(position);
    }

    /** A dot click asks for the first image of that dot's group. */
    method ClickDot(dot: nat)
      requires Valid() && dot < dots.Length
      modifies this`currentIndex, thumbnails, dots
      ensures Valid() && Marked()
      ensures currentIndex == WrapIndex(DotTarget(dot, totalImages, dots.Length), totalImages)
    {
      UpdateGallery(dot * ImagesPerDot(totalImages, dots.Length));
    }

    /** The "previous" arrow: from the first image to the last one. */
    method Prev()
      requires Valid()
      modifies this`currentIndex, thumbnails, dots
      ensures Valid() && Marked()
      ensures currentIndex == if old(currentIndex) == 0 then totalImages - 1 else old(currentIndex) - 1
    {
      UpdateGallery(currentIndex - 1);
    }

    /** The "next" arrow: from the last image to the first one. */
    method Next()
      requires Valid()
      modifies this`currentIndex, thumbnails, dots
      ensures Valid() && Marked()
      ensures currentIndex == if old(currentIndex) == totalImages - 1 then 0 else old(currentIndex) + 1
    {
      UpdateGallery(currentIndex + 1);
    }

    /**
      The arrow keys move like the arrow buttons, but only while the main image
      is in the viewport (`inView`, a layout fact passed in); other keys do nothing.
    */
    method KeyDown(key: string, inView: bool)
      requires Valid()
      modifies this`currentIndex, thumbnails, dots
      ensures Valid()
      ensures inView && (key == "ArrowLeft" || key == "ArrowRight") ==> Marked()
      ensures inView && key == "ArrowLeft" ==> currentIndex == WrapIndex(old(currentIndex) - 1, totalImages)
      ensures inView && key == "ArrowRight" ==> currentIndex == WrapIndex(old(currentIndex) + 1, totalImages)
      ensures !inView || (key != "ArrowLeft" && key != "ArrowRight") ==>
                currentIndex == old(currentIndex) && thumbnails[..] == old(thumbnails[..]) && dots[..] == old(dots[..])
    {
      if inView {
        if key == "ArrowLeft" {
          UpdateGallery(currentIndex - 1);
        } else if key == "ArrowRight" {
          UpdateGallery(currentIndex + 1);
        }
      }
    }
  }

  /** After any update exactly one thumbnail is active. */
  lemma OneThumbnailActive(thumbnails: seq<bool>, current: nat)
    requires current < |thumbnails| && OnlyActive(thumbnails, current)
    ensures CountActive(thumbnails) == 1
  {
    OnlyActiveCount(thumbnails, current);
  }

  /** After any update on a page with dots, exactly one dot is active. */
  lemma OneDotActive(dots: seq<bool>, current: nat, total: nat)
    requires current < total && |dots| > 0
    requires OnlyActive(dots, DotIndex(current, total, |dots|))
    ensures CountActive(dots) == 1
  {
    OnlyActiveCount(dots, DotIndex(current, total, |dots|));
  }
}

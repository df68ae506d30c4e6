/**
 * The navigation state of ComplexLogistic/LogisticView.swift: the visible
 * region of the plane and the history of earlier regions, changed by
 * `reset`, `back` and the commit at the end of a drag; and `update`, which
 * samples the region on the raster, classifies every sample and paints it.
 * Coordinates are reals; the geometry of a drag and the escape-time kernel
 * are opaque function parameters.
 */
module Viewport {
  import opened Stacks
  import opened Raster

  /** A point of the plane (Swift's `SIMD2<Double>`). */
  datatype Point = Point(x: real, y: real)

  /** A rectangle of the plane given by two corners. */
  datatype BoundingBox = BoundingBox(lowerLeft: Point, upperRight: Point)

  /** The region shown at start-up and after a reset. */
  const DefaultLowerLeft := Point(-2.0, -2.0)
  const DefaultUpperRight := Point(4.0, 2.0)

  /** The fixed size of the view, in pixels. */
  const FrameWidth: nat := 1200
  const FrameHeight: nat := 800

  class LogisticView {
    var lowerLeft: Point
    var upperRight: Point
    var isDragging: bool
    /** Earlier regions, the most recent on top. */
    const stack: Stack<BoundingBox>

    /** The region currently shown. */
    function Region(): (box: BoundingBox)
      reads this
    {
      BoundingBox(lowerLeft, upperRight)
    }

    /** A view of the given region with an empty history. */
    constructor (lowerLeft: Point, upperRight: Point)
      ensures this.lowerLeft == lowerLeft && this.upperRight == upperRight
      ensures !isDragging
      ensures fresh(stack) && stack.items == []
    {
      this.lowerLeft := lowerLeft;
      this.upperRight := upperRight;
      isDragging := false;
      stack := new Stack<BoundingBox>();
    }

    /** Shows the default region again and forgets the whole history. */
    method Reset()
      modifies this`lowerLeft, this`upperRight, stack
      ensures lowerLeft == DefaultLowerLeft && upperRight == DefaultUpperRight
      ensures stack.items == []
    {
      lowerLeft := DefaultLowerLeft;
      upperRight := DefaultUpperRight;
      stack.Clear();
    }

    /**
     * Goes back to the most recently pushed region, removing it from the
     * history; with an empty history nothing changes.
     */
    method Back()
      modifies this`lowerLeft, this`upperRight, stack
      ensures old(stack.items) == [] ==>
                lowerLeft == old(lowerLeft) && upperRight == old(upperRight) && stack.items == []
      ensures old(stack.items) != [] ==>
                Region() == old(stack.items)[|old(stack.items)| - 1]
                && stack.items == old(stack.items)[..|old(stack.items)| - 1]
    {
      if stack.IsEmpty() {
        return;
      }
      var box := stack.Pop();
      lowerLeft := box.lowerLeft;
      upperRight := box.upperRight;
    }

    /**
     * Samples the current region at every pixel of the frame with `sample`,
     * classifies every sample with `kernel`, and paints the pixel green
     * exactly when the kernel's answer for that pixel's own sample is true.
     */
    method Update<P>(zero: P, sample: (BoundingBox, nat, nat) -> P, kernel: P -> bool)
      returns (bitmap: array2<Colour>)
      ensures bitmap.Length0 == FrameWidth && bitmap.Length1 == FrameHeight
      ensures forall i: nat, j: nat :: i < FrameWidth && j < FrameHeight ==>
                bitmap[i, j] == PixelColour(kernel(sample(Region(), i, j)))
    {
      var box := Region();
      var aV: array<P>;
      ghost var writes: seq<int>;
      aV, writes := FillSamples(FrameWidth, FrameHeight, zero, (i: nat, j: nat) => sample(box, i, j));
      var buffer := new bool[aV.Length](k requires 0 <= k < aV.Length reads aV => kernel(aV[k]));
      bitmap := Render(buffer, FrameWidth, FrameHeight);
      forall i: nat, j: nat | i < FrameWidth && j < FrameHeight
        ensures bitmap[i, j] == PixelColour(kernel(sample(box, i, j)))
      {
        var k := CellIndex(FrameWidth, FrameHeight, i, j);
        assert buffer[k] == kernel(aV[k]);
      }
    }
  }

  /** Receives the mouse events of the view. */
  class Coordinator {
    const view: LogisticView

    constructor (logisticView: LogisticView)
      ensures view == logisticView
    {
      view := logisticView;
    }

    /**
     * The end of a drag: the region shown before the drag goes on top of
     * the history, then the region becomes the one `updatePoints` computes
     * from it and the drag's corners.
     */
    method MouseUp(updatePoints: BoundingBox -> BoundingBox)
      modifies view`isDragging, view`lowerLeft, view`upperRight, view.stack
      ensures !view.isDragging
      ensures view.stack.items == old(view.stack.items) + [old(view.Region())]
      ensures view.Region() == updatePoints(old(view.Region()))
    {
      view.isDragging := false;
      var box := BoundingBox(view.lowerLeft, view.upperRight);
      view.stack.Push(box);
      var next := updatePoints(box);
      view.lowerLeft, view.upperRight := next.lowerLeft, next.upperRight;
    }
  }

  /** A drag followed by `back` shows the region and the history from before the drag. */
  method MouseUpThenBack(c: Coordinator, updatePoints: BoundingBox -> BoundingBox)
    modifies c.view`isDragging, c.view`lowerLeft, c.view`upperRight, c.view.stack
    ensures c.view.Region() == old(c.view.Region())
    ensures c.view.stack.items == old(c.view.stack.items)
  {
    c.MouseUp(updatePoints);
    c.view.Back();
  }

  /** Right after a reset, `back` has nothing to go back to and changes nothing. */
  method ResetThenBack(v: LogisticView)
    modifies v`lowerLeft, v`upperRight, v.stack
    ensures v.Region() == BoundingBox(DefaultLowerLeft, DefaultUpperRight)
    ensures v.stack.items == []
  {
    v.Reset();
    v.Back();
  }
}

# ComplexLogistic navigation and layout core, in Dafny

ComplexLogistic draws an escape-time fractal of the complex logistic map and
lets the user zoom in by dragging a rectangle, go back, and reset. This
project models the stateful parts of it:

- `Stacks` — the LIFO history `Stack<Element>` (`ComplexLogistic/Stack.swift`),
  a class over a `seq<T>` field with `Push`, `Pop`, `Clear` and `IsEmpty`.
- `Memoization` — the one-slot lazy cache `Memoize<T>`
  (`ComplexLogistic/Memoize.swift`), with a ghost counter of constructor runs.
- `Raster` — the column-major layout `i * height + j` used by `update` in
  `ComplexLogistic/LogisticView.swift`, the loop that fills the sample array and
  the loop that paints the bitmap from the result buffer.
- `Viewport` — the visible region and its history in `LogisticView`: `Reset`,
  `Back`, the commit in `Coordinator.MouseUp`, and `Update`, which chains the
  fill, the classification and the render.
- `Wrappers` — an `Option` type for Swift's `T?`.

Coordinates are `real`s. The sample point of a pixel, the region a drag
produces (`updatePoints`) and the escape-time classification are function
parameters: the model proves what the code does with them, not the
floating-point geometry or the iteration.

Two facts about the code that the model keeps:

- `mouseUp` (ComplexLogistic/LogisticView.swift:178-184) has no guard against a
  zero-width drag: it always pushes and commits, and so does `Coordinator.MouseUp`.
- `logisticMapV` answers `|z|² <= 1` (ComplexLogistic/LogisticMap.swift:71), so a
  true buffer entry means the sample stayed bounded; it is painted green
  (ComplexLogistic/LogisticView.swift:113), and the model names the entry by its
  colour.

## Model

| member | source | states |
|---|---|---|
| `Stacks.Stack.constructor` | ComplexLogistic/Stack.swift:11 | a new stack holds no items and `IsEmpty` is true |
| `Stacks.Stack.IsEmpty` | ComplexLogistic/Stack.swift:22 | true exactly when there are no items; it only reads the stack |
| `Stacks.Stack.Push` | ComplexLogistic/Stack.swift:12-14 | the item is appended on top, all earlier items stay in place, the count grows by one |
| `Stacks.Stack.Pop` | ComplexLogistic/Stack.swift:15-17 | needs a non-empty stack (`removeLast` traps on empty); returns the top item and leaves exactly the items below it |
| `Stacks.Stack.Clear` | ComplexLogistic/Stack.swift:18-20 | afterwards there are no items and `IsEmpty` is true |
| `Stacks.PushThenPop` | ComplexLogistic/Stack.swift:12-17 | a push followed by a pop returns the pushed item and restores the items exactly |
| `Memoization.Memoize.constructor` | ComplexLogistic/Memoize.swift:23-25 | stores the constructor; the cache (nil by default, line 15) is empty and the constructor has not run |
| `Memoization.Memoize.Get` | ComplexLogistic/Memoize.swift:17-21 | returns the constructor's value; afterwards the cache holds it; on a filled cache it returns the cached value without running the constructor; on an empty one it runs the constructor once; the invariant "run at most once, cache empty exactly when never run" is kept |
| `Memoization.GetTwice` | ComplexLogistic/Memoize.swift:17-21 | two calls of `Get` return the same value, and the constructor has run once in all |
| `Raster.PixelColour` | ComplexLogistic/LogisticView.swift:113 | a pixel is green exactly when its buffer entry is true and black exactly when it is false |
| `Raster.CellIndex` | ComplexLogistic/LogisticView.swift:96-100 | the index `i * height + j` of column `i`, row `j` lies in `[0, width * height)` |
| `Raster.CellIndexDecode` | ComplexLogistic/LogisticView.swift:100 | dividing the index by `height` gives back `i`, the remainder gives back `j` |
| `Raster.CellIndexInjective` | ComplexLogistic/LogisticView.swift:98-104 | two cells with the same index are the same cell |
| `Raster.CellIndexCovers` | ComplexLogistic/LogisticView.swift:96-104 | every slot of a `width * height` buffer is the index of some cell of the raster |
| `Raster.FillSamples` | ComplexLogistic/LogisticView.swift:96-104 | the array has `width * height` slots; the slot of cell `(i, j)` holds that cell's sample; every slot holds the sample of the cell it decodes to; the stores hit indices 0, 1, ..., `width * height - 1` in that order, so each slot is written exactly once |
| `Raster.Render` | ComplexLogistic/LogisticView.swift:111-115 | the bitmap is `width` by `height` and pixel `(i, j)` is green exactly when buffer entry `i * height + j` is true, black otherwise |
| `Viewport.LogisticView.constructor` | ComplexLogistic/LogisticView.swift:51-61 | the view shows the given region, is not dragging and starts with an empty history (the start-up state is assumed, see "## Left out") |
| `Viewport.LogisticView.Reset` | ComplexLogistic/LogisticView.swift:139-142 | the region becomes lower-left (-2, -2), upper-right (4, 2) (the constants of lines 14-15) and the history is empty |
| `Viewport.LogisticView.Back` | ComplexLogistic/LogisticView.swift:148-152 | with an empty history region and history are unchanged; otherwise the region becomes the most recently pushed box and the history loses exactly that box |
| `Viewport.LogisticView.Update` | ComplexLogistic/LogisticView.swift:87-117 | the bitmap is 1200 by 800, and pixel `(i, j)` is green exactly when the classification of the sample of that same pixel is true: the fill and render loops agree on the layout |
| `Viewport.Coordinator.constructor` | ComplexLogistic/LogisticView.swift:162-164 | the coordinator drives the given view |
| `Viewport.Coordinator.MouseUp` | ComplexLogistic/LogisticView.swift:178-184 | dragging ends; the region shown before the drag is pushed on the history, then the region becomes `updatePoints` of it |
| `Viewport.MouseUpThenBack` | ComplexLogistic/LogisticView.swift:181-184 | a drag commit followed by `Back` restores the pre-drag region and the pre-drag history exactly |
| `Viewport.ResetThenBack` | ComplexLogistic/LogisticView.swift:139-152 | `Back` right after `Reset` finds an empty history and leaves the default region in place |

## Left out

- `logisticMap` and `logisticMapV` (`ComplexLogistic/LogisticMap.swift`): double-precision complex iteration over vDSP calls; `Update` takes the classification as a parameter `kernel`.
- `concurrentMapV` (defined outside the files modelled here): its chunked, concurrent writes into the shared buffer are not modelled. `Update` fills the buffer with `kernel` applied to each slot of the sample array. That is an assumption: it rests on `logisticMapV` answering element by element (ComplexLogistic/LogisticMap.swift:35-71) and on `concurrentMapV` writing each chunk's answers back at that chunk's own offset. The initial `false` fill of the buffer is not modelled either.
- `updatePoints` and the stride computations of `update`: floating-point geometry; they are the parameters `updatePoints` and `sample`.
- `Task { await update() }` after `reset`, `back` and `mouseUp`, `@MainActor` and `async`: scheduling; the model's navigation methods only change the state, and `Update` is a separate method.
- `mouseDown`, `mouseDragged`, `convertPoint` and the transient drag region: event plumbing and AppKit coordinate conversion. In `MouseUp`, the new second drag point is folded into the `updatePoints` parameter.
- `ExtendedView`, `makeNSView`, `updateNSView`, `Bitmap`, `NSImage`, `NSColor`: UI framework. The bitmap is an `array2<Colour>` and the two colours are a datatype.
- `ComplexLogistic/ComplexLogisticApp.swift`: SwiftUI scene and menu wiring only.
- `BoundingBox` and the view's initial region are defined in files that are not part of this model; `BoundingBox` is a pair of points here.
- `Viewport.LogisticView.constructor`: lines 51-61 only declare bindings; the initial region, the history and `isDragging` come from the caller's state, which is not part of this model. The empty start-up history and `isDragging == false` are assumed. SwiftUI may rebuild the view struct over the same, possibly non-empty, stack; the model has one view object per history.
- `Stacks.Stack`: Swift's `Stack` is a value type held through a SwiftUI binding; here it is a class owned by the view through a constant field, so copying a stack is not modelled.
- `Memoization.Memoize`: Swift's Memoize is a value type (ComplexLogistic/Memoize.swift:11) with a `mutating get()`; copying it is not modelled. A Swift copy taken before the first `get()` runs the constructor again; here the class is shared by reference, so "at most once" holds per object.
- `Memoization.Memoize`: the constructor closure is a Dafny total function, which always yields the same value; a Swift closure with side effects or varying results is not modelled.

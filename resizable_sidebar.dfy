/** The `ResizableSidebar` hook (assets/js/hooks/resizable_sidebar.js): a
    drag on the handle resizes the sidebar, clamped between a fixed minimum
    and 80% of the window width, and the plot area takes up the rest. */
module ResizableSidebar {
  import opened Wrappers

  const MinWidth: real := 250.0

  /** The width limit fixed at mount time: 80% of the window's inner width. */
  function MaxWidthFor(innerWidth: real): real
  {
    innerWidth * 0.8
  }

  function Min(a: real, b: real): real { if a <= b then a else b }

  function Max(a: real, b: real): real { if a >= b then a else b }

  /** The width a drag to `clientX` asks for: the width at the press plus how
      far the cursor moved left, clamped as `Math.max(minWidth,
      Math.min(maxWidth, w))` does (resizable_sidebar.js:28-32). */
  function NewWidth(maxWidth: real, initialWidth: real, initialX: real, clientX: real): (w: real)
    ensures w >= MinWidth
    ensures maxWidth >= MinWidth ==> w <= maxWidth
    ensures maxWidth < MinWidth ==> w == MinWidth
    ensures MinWidth <= initialWidth + (initialX - clientX) <= maxWidth ==> w == initialWidth + (initialX - clientX)
  {
    Max(MinWidth, Min(maxWidth, initialWidth + (initialX - clientX)))
  }

  /** Moving the cursor further right never widens the sidebar, so moving it
      left never shrinks it (resizable_sidebar.js:28-32). */
  lemma NewWidthNonIncreasing(maxWidth: real, initialWidth: real, initialX: real, x1: real, x2: real)
    requires x1 <= x2
    ensures NewWidth(maxWidth, initialWidth, initialX, x2) <= NewWidth(maxWidth, initialWidth, initialX, x1)
  {
  }

  /** The hook's closure state and the styles it writes. */
  class Sidebar {
    const maxWidth: real
    const hasPlot: bool
    var isResizing: bool
    var initialWidth: Option<real>
    var initialX: Option<real>
    /** `sidebar.style.width`, once set. */
    var sidebarWidth: Option<real>
    /** The `w` in the plot container's `calc(100% - wpx)`, once set. */
    var plotOffset: Option<real>
    /** Whether the body carries the `sidebar-resizing` class. */
    var bodyResizing: bool

    /** A drag in progress has its starting point recorded. */
    predicate Valid()
      reads this
    {
      isResizing ==> initialWidth.Some? && initialX.Some?
    }

    /** `mounted` (resizable_sidebar.js:2-12): not resizing yet. */
    constructor Mounted(innerWidth: real, hasPlot: bool, bodyResizing: bool)
      ensures Valid() && !isResizing
      ensures maxWidth == MaxWidthFor(innerWidth) && this.hasPlot == hasPlot
      ensures initialWidth == None && initialX == None && sidebarWidth == None && plotOffset == None
      ensures this.bodyResizing == bodyResizing
    {
      maxWidth := MaxWidthFor(innerWidth);
      this.hasPlot := hasPlot;
      isResizing := false;
      initialWidth, initialX := None, None;
      sidebarWidth, plotOffset := None, None;
      this.bodyResizing := bodyResizing;
    }

    /** `mousedown` on the handle (resizable_sidebar.js:14-22). */
    method MouseDown(offsetWidth: int, clientX: real)
      modifies this
      ensures Valid() && isResizing && bodyResizing
      ensures initialWidth == Some(offsetWidth as real) && initialX == Some(clientX)
      ensures sidebarWidth == old(sidebarWidth) && plotOffset == old(plotOffset)
    {
      isResizing := true;
      initialWidth := Some(offsetWidth as real);
      initialX := Some(clientX);
      bodyResizing := true;
    }

    /** `mousemove` anywhere (resizable_sidebar.js:24-41): ignored unless a
        drag is in progress; otherwise both widths get the same clamped value. */
    method MouseMove(clientX: real)
      requires Valid()
      modifies this
      ensures Valid()
      ensures isResizing == old(isResizing) && initialWidth == old(initialWidth) && initialX == old(initialX)
      ensures bodyResizing == old(bodyResizing)
      ensures !old(isResizing) ==> sidebarWidth == old(sidebarWidth) && plotOffset == old(plotOffset)
      ensures old(isResizing) ==>
                sidebarWidth == Some(NewWidth(maxWidth, initialWidth.value, initialX.value, clientX)) &&
                plotOffset == (if hasPlot then sidebarWidth else old(plotOffset))
    {
      if !isResizing {
        return;
      }
      var w := NewWidth(maxWidth, initialWidth.value, initialX.value, clientX);
      sidebarWidth := Some(w);
      if hasPlot {
        plotOffset := Some(w);
      }
    }

    /** `mouseup` anywhere (resizable_sidebar.js:43-48). */
    method MouseUp()
      modifies this
      ensures Valid() && !isResizing
      ensures initialWidth == old(initialWidth) && initialX == old(initialX)
      ensures sidebarWidth == old(sidebarWidth) && plotOffset == old(plotOffset)
      ensures bodyResizing == (old(bodyResizing) && !old(isResizing))
    {
      if isResizing {
        isResizing := false;
        bodyResizing := false;
      }
    }
  }
}

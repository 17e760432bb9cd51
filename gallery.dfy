/**
 * The gallery controller and its thumbnails. A click on a thumbnail is a
 * direct call of ToggleSelection with that thumbnail; the Previous and Next
 * buttons are direct calls of ShowPreviousPage and ShowNextPage.
 */
module Gallery {
  import opened Paths
  import opened Pagination
  import opened Selection

  /** A thumbnail: the image it shows and whether its selection tick is drawn. */
  class ClickableLabel {
    const imagePath: Path
    var tickShown: bool

    constructor (imagePath: Path)
      ensures this.imagePath == imagePath && !tickShown
    {
      this.imagePath := imagePath;
      tickShown := false;
    }

    /** Draw or clear the tick. */
    method ShowTick(show: bool)
      modifies this
      ensures tickShown == show
    {
      tickShown := show;
    }
  }

  /** A thumbnail placed in the grid at (row, col). */
  datatype Placement = Placement(widget: ClickableLabel, row: nat, col: nat)

  class ImageSelector {
    const imagePaths: seq<Path>
    const totalPages: nat
    var selected: set<Path>
    var currentPage: nat
    /** The thumbnails of the current page, in slot order. */
    var grid: seq<Placement>
    var prevEnabled: bool
    var nextEnabled: bool

    /** The page index is a page of the gallery (page 0 when there are no images). */
    ghost predicate PageInRange()
      reads this
    {
      totalPages == TotalPages(|imagePaths|) &&
      (|imagePaths| >= 1 ==> currentPage < totalPages) &&
      (|imagePaths| == 0 ==> currentPage == 0)
    }

    /**
     * The grid shows the current page's images, slot i at divmod(i, 4), and
     * each button is enabled exactly when pressing it changes the page.
     */
    ghost predicate Displayed()
      reads this
    {
      var items := PageItems(imagePaths, currentPage);
      |grid| == |items| &&
      (forall i :: 0 <= i < |grid| ==>
         grid[i].widget.imagePath == items[i] && (grid[i].row, grid[i].col) == GridCell(i)) &&
      prevEnabled == (currentPage > 0) &&
      nextEnabled == (currentPage < totalPages - 1)
    }

    ghost predicate Valid()
      reads this
    {
      PageInRange() && Displayed()
    }

    ghost function Labels(): set<ClickableLabel>
      reads this
    {
      set i | 0 <= i < |grid| :: grid[i].widget
    }

    /** Every thumbnail on the grid shows its tick exactly when its image is selected. */
    ghost predicate InSync()
      reads this, Labels()
    {
      forall i :: 0 <= i < |grid| ==> grid[i].widget.tickShown == (grid[i].widget.imagePath in selected)
    }

    /** Every thumbnail on the grid is a new object. */
    twostate predicate FreshGrid()
      reads this
    {
      forall i :: 0 <= i < |grid| ==> fresh(grid[i].widget)
    }

    constructor (imagePaths: seq<Path>)
      ensures Valid() && InSync()
      ensures forall i :: 0 <= i < |grid| ==> fresh(grid[i].widget)
      ensures this.imagePaths == imagePaths && selected == {} && currentPage == 0
    {
      this.imagePaths := imagePaths;
      totalPages := TotalPages(|imagePaths|);
      selected := {};
      currentPage := 0;
      grid := [];
      prevEnabled, nextEnabled := false, false;
      new;
      ShowPage();
    }

    /**
     * Rebuild the grid for the current page: one new thumbnail per image of
     * the page, placed at divmod(slot, 4), its tick restored from the
     * selection; then set the buttons from the page index.
     */
    method ShowPage()
      modifies this`grid, this`prevEnabled, this`nextEnabled
      ensures Displayed() && InSync() && FreshGrid()
    {
      var items := PageItems(imagePaths, currentPage);
      var placed: seq<Placement> := [];
      var index := 0;
      while index < |items|
        invariant index <= |items|
        invariant |placed| == index
        invariant forall i :: 0 <= i < index ==>
                    placed[i].widget.imagePath == items[i] && (placed[i].row, placed[i].col) == GridCell(i)
        invariant forall i :: 0 <= i < index ==>
                    fresh(placed[i].widget) && placed[i].widget.tickShown == (items[i] in selected)
      {
        var thumb := new ClickableLabel(items[index]);
        if items[index] in selected {
          thumb.ShowTick(true);
        }
        var cell := GridCell(index);
        placed := placed + [Placement(thumb, cell.0, cell.1)];
        index := index + 1;
      }
      grid := placed;
      prevEnabled := currentPage > 0;
      nextEnabled := currentPage < totalPages - 1;
    }

    /** show_page as the program has it: every new thumbnail starts without a tick. */
    method ShowPageAsWritten()
      modifies this`grid, this`prevEnabled, this`nextEnabled
      ensures Displayed() && FreshGrid()
      ensures forall i :: 0 <= i < |grid| ==> !grid[i].widget.tickShown
    {
      var items := PageItems(imagePaths, currentPage);
      var placed: seq<Placement> := [];
      var index := 0;
      while index < |items|
        invariant index <= |items|
        invariant |placed| == index
        invariant forall i :: 0 <= i < index ==>
                    placed[i].widget.imagePath == items[i] && (placed[i].row, placed[i].col) == GridCell(i)
        invariant forall i :: 0 <= i < index ==> fresh(placed[i].widget)
        invariant forall i :: 0 <= i < index ==> !placed[i].widget.tickShown
      {
        var thumb := new ClickableLabel(items[index]);
        var cell := GridCell(index);
        placed := placed + [Placement(thumb, cell.0, cell.1)];
        index := index + 1;
      }
      grid := placed;
      prevEnabled := currentPage > 0;
      nextEnabled := currentPage < totalPages - 1;
    }

    /** The Previous button: step back one page unless on the first page. */
    method ShowPreviousPage()
      requires Valid()
      modifies this`currentPage, this`grid, this`prevEnabled, this`nextEnabled
      ensures Valid()
      ensures currentPage == if old(currentPage) > 0 then old(currentPage) - 1 else old(currentPage)
      ensures currentPage != old(currentPage) <==> old(prevEnabled)
      ensures selected == old(selected)
      ensures currentPage != old(currentPage) ==> InSync() && FreshGrid()
      ensures currentPage == old(currentPage) ==> grid == old(grid)
      ensures old(InSync()) ==> InSync()
    {
      if currentPage > 0 {
        currentPage := currentPage - 1;
        ShowPage();
      }
    }

    /** The Next button: step forward one page unless on the last page. */
    method ShowNextPage()
      requires Valid()
      modifies this`currentPage, this`grid, this`prevEnabled, this`nextEnabled
      ensures Valid()
      ensures currentPage == if old(currentPage) < totalPages - 1 then old(currentPage) + 1 else old(currentPage)
      ensures currentPage != old(currentPage) <==> old(nextEnabled)
      ensures selected == old(selected)
      ensures currentPage != old(currentPage) ==> InSync() && FreshGrid()
      ensures currentPage == old(currentPage) ==> grid == old(grid)
      ensures old(InSync()) ==> InSync()
    {
      if currentPage < totalPages - 1 {
        currentPage := currentPage + 1;
        ShowPage();
      }
    }

    /** The Previous button as the program has it: the page is rebuilt by ShowPageAsWritten. */
    method ShowPreviousPageAsWritten()
      requires Valid()
      modifies this`currentPage, this`grid, this`prevEnabled, this`nextEnabled
      ensures Valid()
      ensures currentPage == if old(currentPage) > 0 then old(currentPage) - 1 else old(currentPage)
      ensures currentPage != old(currentPage) <==> old(prevEnabled)
      ensures selected == old(selected)
      ensures currentPage != old(currentPage) ==>
                FreshGrid() && forall i :: 0 <= i < |grid| ==> !grid[i].widget.tickShown
      ensures currentPage == old(currentPage) ==> grid == old(grid)
    {
      if currentPage > 0 {
        currentPage := currentPage - 1;
        ShowPageAsWritten();
      }
    }

    /** The Next button as the program has it: the page is rebuilt by ShowPageAsWritten. */
    method ShowNextPageAsWritten()
      requires Valid()
      modifies this`currentPage, this`grid, this`prevEnabled, this`nextEnabled
      ensures Valid()
      ensures currentPage == if old(currentPage) < totalPages - 1 then old(currentPage) + 1 else old(currentPage)
      ensures currentPage != old(currentPage) <==> old(nextEnabled)
      ensures selected == old(selected)
      ensures currentPage != old(currentPage) ==>
                FreshGrid() && forall i :: 0 <= i < |grid| ==> !grid[i].widget.tickShown
      ensures currentPage == old(currentPage) ==> grid == old(grid)
    {
      if currentPage < totalPages - 1 {
        currentPage := currentPage + 1;
        ShowPageAsWritten();
      }
    }

    /**
     * A click on `thumb`, which shows `imagePath`: flip the path's membership
     * and draw its tick accordingly. When the thumbnail is on the grid
     * and no other thumbnail of the page shows the same image, the grid
     * stays in sync with the selection.
     */
    method ToggleSelection(imagePath: Path, thumb: ClickableLabel)
      requires Valid()
      modifies this`selected, thumb
      ensures Valid()
      ensures selected == Toggled(old(selected), imagePath)
      ensures thumb.tickShown == (imagePath in selected)
      ensures (old(InSync()) && thumb in old(Labels()) && thumb.imagePath == imagePath &&
               Distinct(PageItems(imagePaths, currentPage))) ==> InSync()
    {
      if imagePath in selected {
        selected := selected - {imagePath};
        thumb.ShowTick(false);
      } else {
        selected := selected + {imagePath};
        thumb.ShowTick(true);
      }
      if old(InSync()) && thumb in old(Labels()) && thumb.imagePath == imagePath &&
         Distinct(PageItems(imagePaths, currentPage)) {
        var j :| 0 <= j < |grid| && grid[j].widget == thumb;
        forall i | 0 <= i < |grid|
          ensures grid[i].widget.tickShown == (grid[i].widget.imagePath in selected)
        {
          if grid[i].widget != thumb {
            assert i != j;
            assert grid[i].widget.imagePath != imagePath;
          }
        }
      }
    }

    /** The list written by "Save Selected Images": each selected path once, in no particular order. */
    method SaveSelectedImages() returns (list: seq<Path>)
      ensures Elements(list) == selected
      ensures Distinct(list)
      ensures |list| == |selected|
    {
      var rest := selected;
      list := [];
      while rest != {}
        invariant rest !! Elements(list)
        invariant rest + Elements(list) == selected
        invariant Distinct(list)
        decreases |rest|
      {
        var p :| p in rest;
        AppendNew(list, p);
        list := list + [p];
        rest := rest - {p};
      }
      DistinctCardinality(list);
    }
  }

  /** Seventeen image paths: a gallery of two pages. */
  function SeventeenPaths(): (paths: seq<Path>)
    ensures |paths| == 17 && TotalPages(|paths|) == 2
  {
    seq(17, i requires 0 <= i < 17 => "/pictures/" + [(i + 'a' as int) as char] + ".png")
  }

  /**
   * The tick is lost with the program's navigation: on a gallery of two
   * pages, select the first image, press Next, then Previous; the image is
   * still selected but its new thumbnail shows no tick.
   */
  method TickLostOnRevisit() returns (stillSelected: bool, tickShown: bool)
    ensures stillSelected && !tickShown
  {
    var paths := SeventeenPaths();
    var gallery := new ImageSelector(paths);
    var thumb := gallery.grid[0].widget;
    gallery.ToggleSelection(paths[0], thumb);
    gallery.ShowNextPageAsWritten();
    gallery.ShowPreviousPageAsWritten();
    assert gallery.currentPage == 0;
    stillSelected := gallery.grid[0].widget.imagePath in gallery.selected;
    tickShown := gallery.grid[0].widget.tickShown;
  }

  /** With the corrected rebuild the tick survives leaving a page and coming back. */
  method TickKeptOnRevisit() returns (stillSelected: bool, tickShown: bool)
    ensures stillSelected && tickShown
  {
    var paths := SeventeenPaths();
    var gallery := new ImageSelector(paths);
    var thumb := gallery.grid[0].widget;
    gallery.ToggleSelection(paths[0], thumb);
    gallery.ShowNextPage();
    gallery.ShowPreviousPage();
    assert gallery.currentPage == 0;
    stillSelected := gallery.grid[0].widget.imagePath in gallery.selected;
    tickShown := gallery.grid[0].widget.tickShown;
  }
}

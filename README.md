# PhotoProofing gallery controller in Dafny

PhotoProofing is a desktop tool for going through a folder of screenshots. The user ticks the ones to keep, and the tool saves the ticked paths to a JSON list. This project models its core, the `ImageSelector` gallery controller in `PProofing.py`, and proves properties of the model:

- **Pagination** (module `Pagination`, pure). The gallery shows 16 thumbnails per page. The page count is the ceiling of n/16. Page p shows the slice `[16p, min(16p+16, n))` of the path list, and slot i of a page sits at grid cell `divmod(i, 4)`. The proofs show that every page in range holds 1 to 16 images and is a contiguous run of the list. Laying all the pages end to end gives back the whole list, so each path is shown exactly once and in order. Every slot of a page gets its own cell of the 4 x 4 grid.
- **Selection** (module `Selection`, pure). A click on a thumbnail flips that path's membership in the selection set and leaves every other path alone. Two clicks on the same path cancel out. After any sequence of clicks, the selected paths are exactly those clicked an odd number of times (starting from an empty selection).
- **Start-up** (module `Startup`, pure). Only directory entries whose lower-cased names end in `.png`, `.jpg`, `.jpeg`, `.bmp` or `.gif` are kept. They keep their listing order and are joined onto the directory path as `os.path.join` does. When nothing is left, the program reports this and exits instead of opening the gallery.
- **Controller state** (module `Gallery`, imperative). `ImageSelector` is a class with these fields:
  - `imagePaths` and `totalPages`, both constant;
  - `selected`, `currentPage` and the thumbnail `grid`;
  - the enable flags of the Previous and Next buttons.

  `ClickableLabel` is a class with its own `tickShown` flag. `ShowPage` rebuilds the grid in a loop. It is the corrected rebuild, which redraws the tick of every selected image (see "## Findings"). `ShowPageAsWritten` is the rebuild as the code has it, where every new thumbnail starts without a tick. `ShowPreviousPage` and `ShowNextPage` rebuild with `ShowPage`, so their "in sync with the selection" promise belongs to the corrected rebuild. `ShowPreviousPageAsWritten` and `ShowNextPageAsWritten` are the code's navigation, rebuilding with `ShowPageAsWritten`. The navigation methods move the page by one only when their guard holds. Each button is enabled exactly when pressing it would change the page. `ToggleSelection` flips one path and sets the clicked thumbnail's tick to the new membership. `SaveSelectedImages` turns the set into the list that gets saved: every selected path exactly once, in no particular order.

A click is modelled as a direct call of `ToggleSelection(path, thumbnail)`, and a button press as a direct call of `ShowPreviousPage` or `ShowNextPage`. The directory listing is a parameter of `Startup.Start`.

The model follows the code on these points, where a reader might expect otherwise:
- The code's `ImageSelector` accepts an empty list: it gets 0 pages, an empty grid and both buttons disabled. The "no images" exit happens before that, at start-up (PProofing.py:159-161). So the constructor has no precondition, and the exit is modelled in `Startup.Start`.
- The page size is fixed at 16 and the grid at 4 columns, rather than being parameters.
- Saving has no error handling in the code. The model covers only the set-to-list step.

## Model

| member | source | states |
|---|---|---|
| Pagination.TotalPages | PProofing.py:16 | the page count is the ceiling of n/16: 16 pages' worth covers n, one page fewer does not, and it is at least 1 exactly when there is an image |
| Pagination.PageItems | PProofing.py:53-57 | a page holds at most 16 images; a page in range holds exactly min(16, n - 16·page) images, at least one, and is the contiguous run of the list starting at 16·page; a page beyond the list is empty |
| Pagination.ConcatPagesIsPrefix | PProofing.py:53-57 | the first k pages laid end to end are exactly the first min(16k, n) images |
| Pagination.PagesReassemble | PProofing.py:16-57 | all pages 0 … total-1 laid end to end give back the image list exactly, each path once and in order |
| Pagination.PageOfIndex | PProofing.py:53-57 | image i is shown on page i/16 (a page in range) in slot i%16 |
| Pagination.PageItemsDistinct | PProofing.py:53-57 | a page of a duplicate-free list is duplicate-free |
| Pagination.GridCell | PProofing.py:63 | divmod(index, 4): column below 4 and row·4 + column = index |
| Pagination.GridCellsOfPage | PProofing.py:63 | the 16 slots of a page fall in rows and columns 0..3, distinct slots in distinct cells |
| Pagination.TwentyImages | PProofing.py:16-57 | with 20 images there are 2 pages, the first 16 images and the last 4 |
| Selection.Toggled | PProofing.py:80-86 | a click flips the membership of the clicked path and of no other path |
| Selection.ToggledIsSymmetricDifference | PProofing.py:80-86 | a click is the symmetric difference with {path} |
| Selection.ToggledTwice | PProofing.py:80-86 | two clicks on the same path restore the selection |
| Selection.ApplyTogglesParity | PProofing.py:80-86 | after any sequence of clicks a path is selected iff its initial membership differs from "clicked an odd number of times" |
| Selection.OddClicksSelected | PProofing.py:80-86 | from an empty selection, the selected paths are exactly those clicked an odd number of times |
| Startup.Lower | PProofing.py:157 | lower-casing keeps the length, turns each upper-case ASCII letter into its lower-case letter (code + 32), and keeps every other character |
| Startup.EndsWithAny | PProofing.py:157 | the tuple form of endswith holds iff the text ends in one of the listed suffixes |
| Startup.IsImageName | PProofing.py:157 | an entry is kept iff its lower-cased name ends in one of .png, .jpg, .jpeg, .bmp, .gif; Startup.ImageNameIgnoresCase restates this without lower-casing, letter by letter up to ASCII case |
| Startup.Join | PProofing.py:156 | for a name without '/', the name is the basename of the joined path and ends it, and what precedes it is the directory itself when that is empty or ends in '/', and the directory plus one added '/' otherwise |
| Startup.ImageFilesMembership | PProofing.py:156-157 | a path is in the gallery iff it is the join of a listed entry whose name is an image name |
| Startup.ImageFilesAppend | PProofing.py:156-157 | filtering a concatenated listing is concatenating the filtered parts, so listing order is preserved |
| Startup.ImageFiles | PProofing.py:156-157 | the gallery never has more paths than the listing has entries; Startup.ImageFilesMembership and Startup.ImageFilesAppend characterise it fully (which paths, in which order) |
| Startup.ImageFilesDistinct | PProofing.py:156-157 | distinct directory entries (no '/' in them) give distinct image paths |
| Startup.ImageFilesEmpty | PProofing.py:156-161 | the gallery list is empty iff no listed entry is an image name |
| Startup.Start | PProofing.py:156-163 | start-up exits with no window iff no entry is an image name; otherwise it opens the gallery on the non-empty filtered list |
| Startup.ImageNameIgnoresCase | PProofing.py:157 | for every name: it is kept iff its last characters spell one of the allowed extensions, letter by letter up to ASCII case |
| Startup.ImageNameOfLower | PProofing.py:157 | lower-casing a name first never changes whether it is kept |
| Startup.InnerExtensionRejected | PProofing.py:157 | only the final extension counts ("archive.png.zip" is dropped) |
| Gallery.ClickableLabel.constructor | PProofing.py:111-114 | a new thumbnail shows the given path and no tick |
| Gallery.ClickableLabel.ShowTick | PProofing.py:122-124 | the tick flag becomes the given value |
| Gallery.ImageSelector.constructor | PProofing.py:10-17 | a new gallery starts on page 0 with an empty selection; the page count is ⌈n/16⌉, the first page is displayed with the buttons set, and every thumbnail's tick agrees with the selection |
| Gallery.ImageSelector.ShowPage | PProofing.py:46-68 | rebuilds the grid: one new thumbnail per image of the current page's slice, slot i at divmod(i, 4), its tick equal to the image's membership; Previous enabled iff page > 0, Next iff page < total-1 |
| Gallery.ImageSelector.ShowPageAsWritten | PProofing.py:46-68 | the same rebuild as the code does it: the grid shows the page, and every new thumbnail has no tick |
| Gallery.ImageSelector.ShowPreviousPage | PProofing.py:70-73 | the page drops by one exactly when it was above 0 (which is exactly when Previous was enabled), otherwise nothing changes; the page stays in range and the selection is untouched; with the corrected rebuild, a moved page shows new thumbnails in sync with the selection |
| Gallery.ImageSelector.ShowNextPage | PProofing.py:75-78 | the page rises by one exactly when it was below total-1 (which is exactly when Next was enabled), otherwise nothing changes; the page stays in range and the selection is untouched; with the corrected rebuild, a moved page shows new thumbnails in sync with the selection |
| Gallery.ImageSelector.ShowPreviousPageAsWritten | PProofing.py:70-73 | the same page movement, guard and untouched selection as ShowPreviousPage, with the code's rebuild: a moved page shows new thumbnails, none with a tick |
| Gallery.ImageSelector.ShowNextPageAsWritten | PProofing.py:75-78 | the same page movement, guard and untouched selection as ShowNextPage, with the code's rebuild: a moved page shows new thumbnails, none with a tick |
| Gallery.ImageSelector.ToggleSelection | PProofing.py:80-86 | the selection becomes the old one with only the path flipped; the clicked thumbnail's tick equals the path's new membership; if the thumbnail is on the grid and shows that path, and the page has no repeated path, every tick on the grid still agrees with the selection |
| Gallery.ImageSelector.SaveSelectedImages | PProofing.py:88-90 | the saved list holds every selected path exactly once and nothing else (its set is the selection, no duplicates, same size) |
| Gallery.TickLostOnRevisit | PProofing.py:57-78 | with the code's navigation on 17 images, selecting the first image, then pressing Next and Previous, leaves it selected with no tick |
| Gallery.TickKeptOnRevisit | PProofing.py:70-86 | with the corrected rebuild, selecting an image, then pressing Next and Previous, leaves the image selected with its tick shown |

## Left out

- Qt widget and layout construction is not modelled. This covers `deleteLater` of the old grid's widgets, signal/slot wiring and `mousePressEvent` dispatch. Clicks and button presses are direct method calls, and the old grid is simply replaced.
- `paintEvent`, `repaint` and the drawing of the tick glyph are left out because they only render. The tick is the `tickShown` flag.
- `QPixmap` loading and scaling, `FullImageDialog` and `view_full_image` are left out. They decode and display images inside a library and change no gallery state.
- `save_selected_images` writes a file using the working directory, `open`, `json.dump` and `print`. None of that I/O is modelled. Only the set-to-list step is (`SaveSelectedImages` returns the list).
- `os.listdir`, `sys.exit`, `QApplication` and the event loop are left out. The directory listing is the `names` parameter of `Startup.Start`, and the exit is its `NoImageFiles` outcome.
- Startup.Lower: lower-cases ASCII letters only, not all of Unicode as Python's `str.lower` does. For the suffix test this gives the same answer. The only non-ASCII characters that lower-case to ASCII letters are U+212A (to `k`) and U+0130 (to `i` plus a combining dot). Neither `k` nor a final combining dot occurs in the allowed extensions.
- Gallery.ImageSelector.SaveSelectedImages: the list order is an arbitrary enumeration of the set. It is not Python's actual set iteration order, which depends on hashing.
- Gallery.ImageSelector.ToggleSelection: "every tick agrees with the selection" is promised only when the clicked thumbnail is on the grid and shows the clicked path, and no path repeats on the page. A repeated path would leave its other thumbnail's tick stale, in the code as well. The program's own listing never repeats a path (`Startup.ImageFilesDistinct`).

## Findings

| source | as written | input that shows it | evidently intended | confidence | as-written member | corrected member |
|---|---|---|---|---|---|---|
| PProofing.py:58 | `show_page` builds every thumbnail with `tick_shown` false, even for images already in `selected_images` | with 17 images, select the first image on page 0, press Next, then Previous: the image is still selected but its thumbnail shows no tick | each rebuilt thumbnail shows its tick exactly when its image is selected, as toggling keeps it | high (not executed) | Gallery.TickLostOnRevisit | Gallery.ImageSelector.ShowPage |

# Bejeweled view core in Dafny

This project models two pieces of sequential logic from the Swing front end of a
Bejeweled clone, and proves properties of the model.

* **The grid view** (`src/main/java/gui/Gui.java`). This is an 8×8 array of buttons indexed
  `[y][x]`. The frame overwrites button icons in place:
  * `setJewelImage` shows the board's jewel image, or the `Empty` image where there is no jewel;
  * `clearJewelImage` always shows `Empty`;
  * `highLightJewel` shows the jewel's `…HL` variant;
  * `jewelSelected` highlights, then restores the previous selection;
  * `boardChanged` redraws all 64 cells.

  A click is dispatched by a row-major search for the clicked button. Each of the four
  observer callbacks submits one task to a single-thread executor.
* **The image table** (`src/main/java/gui/IMGLoader.java`). This is a map from colour to
  image. Each listed file is filed under the colour named by the part of its name before
  the first underscore, and a later file replaces an earlier one. `getImage` looks a colour up.

Files and modules:

* `wrappers.dfy` (`Wrappers`): `Option` (where Java has `null`) and `Result` (where Java throws).
* `game_model.dfy` (`GameModel`): what the view reads from the game model. That is `Coordinate`,
  a `Colour` identified by its constant's name, and `Board`. A `Colour`'s `valueOf` uses a
  *palette*, the set of the enumeration's constant names, because the enumeration is not part
  of this model. `Board` is a function from a coordinate to the image colour of the jewel
  there, or `None`.
* `grid_view.dfy` (`GridView`): the abstract grid state. This is a map from each coordinate to
  the icon its button shows. An icon is the colour key its image was fetched under, or `None`
  before the first `setIcon`. This file also holds one pure function per grid operation, and
  lemmas about them.
* `gui.dfy` (`GuiModel`): the `Gui` class.
  * Its fields are `allButtons: array2<Button?>` and the executor's submission log `executor: seq<Task>`.
  * `Valid()` says every cell holds a button of its own.
  * The single-cell operations and `JewelSelected` give the new `View()` as the matching `GridView` function (`SetJewel`, `ClearCell`, `Highlight`, `Select`) of the old one.
  * `BoardChanged`, `CreateGridPane` and the constructor end at `Projection(board)`, whatever the view held before; `CreateButtons` leaves every icon unset.
  * The observer callbacks append one task each and leave the grid alone.
* `img_loader.dfy` (`ImageLoading`):
  * `IndexOf` and `ColourKey` do the name parsing.
  * `Load` is the table the constructor's loop builds, or the error it aborts with.
  * The `IMGLoader` class has the in-place loop and `GetImage`.

The board is a parameter of every grid operation that reads it (all but `ClearJewelImage`,
which never does). It stands for `game.getBoard()` at the moment of the call. The board's contents, the jewels and the colour enumeration are not part
of this model.

## Model

| member | source | states |
|---|---|---|
| `GameModel.ValueOf` | src/main/java/gui/Gui.java:209 | the enumeration's lookup by name succeeds exactly for a constant's name and yields that constant |
| `GridView.NormalColour` | src/main/java/gui/Gui.java:196-202 | the key setJewelImage fetches: `Empty` where the board has no jewel, otherwise the jewel's image colour |
| `GridView.SetJewel` | src/main/java/gui/Gui.java:195-204 | the cell shows the board's normal key for it; every other cell keeps its icon |
| `GridView.ClearCell` | src/main/java/gui/Gui.java:214-217 | the cell shows `Empty`; every other cell keeps its icon |
| `GridView.Highlight` | src/main/java/gui/Gui.java:206-212 | the cell shows the constant named by its jewel's colour followed by `HL`; every other cell keeps its icon |
| `GridView.HighlightColour` | src/main/java/gui/Gui.java:206-209 | no jewel at the coordinate is a fault (the dereference throws); with a jewel, the highlight exists exactly when the palette names `colour + "HL"` and is that constant, and otherwise the fault is that no constant has that name (`valueOf` throws) |
| `GridView.Select` | src/main/java/gui/Gui.java:232-237 | after a selection the new coordinate shows its highlight unless it is also the previous one; the previous coordinate shows its normal image; every other cell keeps its icon |
| `GridView.ReselectRestores` | src/main/java/gui/Gui.java:232-237 | selecting a coordinate whose previous selection is itself amounts to setJewelImage there: the later restore wins over the highlight |
| `GridView.Projection` | src/main/java/gui/Gui.java:224-230 | the board's projection covers exactly the 64 cells |
| `GridView.ProjectionCharacterised` | src/main/java/gui/Gui.java:224-230 | a complete view is the projection of the board exactly when every cell shows what setJewelImage writes for it |
| `GridView.ProjectionIsFixpoint` | src/main/java/gui/Gui.java:195-204 | setJewelImage on any cell of an up-to-date view changes nothing, so redrawing is idempotent |
| `GridView.SetJewelIdempotent` | src/main/java/gui/Gui.java:195-204 | setJewelImage twice on one cell equals once |
| `GuiModel.Gui.constructor` | src/main/java/gui/Gui.java:84-105 | after construction every cell holds its own fresh button, the view is the projection of the board, and no task has been submitted |
| `GuiModel.Gui.CreateButtons` | src/main/java/gui/Gui.java:155-165 | afterwards all 64 entries hold pairwise distinct fresh buttons, without icons yet |
| `GuiModel.Gui.CreateGridPane` | src/main/java/gui/Gui.java:127-141 | every cell is initialised through setJewelImage, so the view is the projection of the board |
| `GuiModel.Gui.ActionPerformed` | src/main/java/gui/Gui.java:173-183 | forwards the coordinate (x, y) of the first button in row-major order that is the event source; forwards nothing exactly when no button is; with distinct buttons the forwarded cell is the only match; the grid is not changed |
| `GuiModel.Gui.SetJewelImage` | src/main/java/gui/Gui.java:195-204 | the cell at [y][x] shows the jewel's image colour, or `Empty` when the board has no jewel there; no other cell changes |
| `GuiModel.Gui.HighLightJewel` | src/main/java/gui/Gui.java:206-212 | needs a jewel at the coordinate and a `…HL` constant for its colour; the target cell shows that constant; no other cell changes |
| `GuiModel.Gui.ClearJewelImage` | src/main/java/gui/Gui.java:214-217 | the target cell shows `Empty` whatever the board holds; no other cell changes |
| `GuiModel.Gui.BoardChanged` | src/main/java/gui/Gui.java:224-230 | afterwards all 64 cells equal what setJewelImage writes for them, whatever they showed before |
| `GuiModel.Gui.JewelSelected` | src/main/java/gui/Gui.java:232-237 | the new view is `Select` of the old: highlight the new coordinate, then restore the previous one if given |
| `GuiModel.Gui.JewelsSwapped` | src/main/java/gui/Gui.java:219-222 | appends exactly one swap task carrying both coordinates to the end of the executor queue; the grid is unchanged |
| `GuiModel.Gui.JewelsCleared` | src/main/java/gui/Gui.java:268-272 | appends exactly one clear task carrying the coordinate list to the end of the queue; the grid is unchanged |
| `GuiModel.Gui.JewelDropped` | src/main/java/gui/Gui.java:274-279 | appends exactly one drop task carrying from and to to the end of the queue; the grid is unchanged |
| `GuiModel.Gui.CoordinateFilled` | src/main/java/gui/Gui.java:281-285 | appends exactly one fill task carrying the coordinate to the end of the queue; the grid is unchanged |
| `ImageLoading.IndexOf` | src/main/java/gui/IMGLoader.java:29 | the result is -1 exactly when the character does not occur; otherwise it is a position holding the character with none before it |
| `ImageLoading.ColourKey` | src/main/java/gui/IMGLoader.java:29-31 | a name without an underscore is an error (`substring(0, -1)` throws); otherwise the key is the constant named by the prefix before the first underscore, or an error naming that prefix when no constant has it |
| `ImageLoading.PrefixUnique` | src/main/java/gui/IMGLoader.java:29-31 | the prefix before the first underscore is unique, so the key of a name is determined |
| `ImageLoading.Load` | src/main/java/gui/IMGLoader.java:28-32 | the table the loop builds, or the error of the file it aborts on; every key of a built table is a constant of the palette |
| `ImageLoading.LoadSucceeds` | src/main/java/gui/IMGLoader.java:28-32 | loading a listing succeeds exactly when every file name yields a colour key |
| `ImageLoading.LoadFailsAtFirst` | src/main/java/gui/IMGLoader.java:28-32 | when loading fails, it fails with the error of the first file in the listing that has no key |
| `ImageLoading.LastIndexOf` | src/main/java/gui/IMGLoader.java:28-32 | finds the last file of the listing filed under a colour, and there is no later one; -1 means none |
| `ImageLoading.LoadTable` | src/main/java/gui/IMGLoader.java:22-32 | the table's keys are exactly the colours some listed file is filed under, and each key maps to the image of its last file (later puts overwrite) |
| `ImageLoading.IMGLoader.constructor` | src/main/java/gui/IMGLoader.java:20-33 | needs every name to yield a key (otherwise Java throws); the in-place loop leaves `imagemap` equal to the loaded table of the listing |
| `ImageLoading.IMGLoader.GetImage` | src/main/java/gui/IMGLoader.java:40-42 | returns the image of the last listed file with the colour's prefix, or None (Java's null) when there is none; a lookup reads the table and changes nothing |

## Left out

- Swing widgetry and layout are left out because they are toolkit calls. This covers button styling, `GridBagConstraints`, preferred sizes, `BackgroundPanel`, `StatsPanel`, the "New Game" button and its listener, and `setVisible`. A button is modelled only by its identity and its icon.
- The background image (`getBackgroundImage`), `ImageIO.read`, `File.listFiles` and the directory path are left out because they are file I/O and decoding. The listing and the decoded images are inputs, and a `null` listing is not modelled.
- Decoding failures are not modelled. `ImageIO.read` returns `null` for a file it cannot decode, and the source stores that `null`.
- The Gui constructor's creation of the image and sound loaders, the autosave window listener and the observer registration are left out. They are calls into classes that are not part of this model.
- The executor's worker thread is left out because it is concurrency. The task bodies are left out because `SwapJewelAction`, `ClearJewelAction`, `DropDownAction` and `FillJewelAction` are not part of this model. Only the submission log and its order are modelled.
- Each task holds a reference to the Gui. The model leaves it out, as there is only one Gui.
- `JewelsCleared` stores the coordinate list as a value. Later changes to the Java `List` that the task shares are not modelled.
- `playMatchSound` is left out because it is audio playback and exception printing.
- `loadGame` and `main` are left out because they are file checks, XML parsing and starting the timer.
- The image lookup an icon goes through is left out. A cell holds the colour key rather than the image.
  - Gui.java refers to a loader class `ImgLoader`, which is not `IMGLoader`.
  - It also assigns the lookup's result to an `ImageIcon`, which `IMGLoader.getImage`'s `BufferedImage` is not.
  - So the grid model does not depend on the image-table model.
- `GridView.HighlightColour` assumes the colour's string form is its constant's name, as for an enumeration that does not override `toString`. The enumeration is not part of this model.
- `GuiModel.Gui.SetJewelImage`, `HighLightJewel`, `ClearJewelImage` and `JewelSelected` require on-grid coordinates. With any other coordinate, Java's array indexing throws.
- Coordinates hold unbounded integers, because the `Coordinate` class is not part of this model.
- Asset coverage is not checked by the model, as it is not checked by `IMGLoader`: a colour without an image is missing from the table, and `getImage` returns `null` for it.

# Heatmap frame builder, modelled in Dafny

Heatmap reads a tab-delimited file of grid cells. Each cell row has:

- a frame file name and a label;
- a centre latitude and longitude;
- a cell width in degrees;
- a deviation score.

The program groups the rows into frames. For each frame it paints one PNG over a Mercator base map. This project models the frame-building core in Dafny and proves properties of it.

The model covers:

- **Colour bucket.** Each row's colour bucket is computed in the `Dataset` constructor. The score is shifted by a baseline of 2, truncated to `int` and clipped to the nine-colour palette. A negative shifted score means no colour.
- **Header check.** Line 0 must be the six column names, compared ignoring case.
- **Grouping.** `loadData` groups the rows in a `HashMap` of lists. A row's key is its file name. When the file name is exactly `auto`, the key is the label and the sticky `autoNumberFiles` flag is set.
- **Frames.** `makeFrames` sorts the keys with `Collections.sort`. It numbers the frames from 0 and names each frame's file. In a numbered run the name is the zero-padded number plus `.png`; otherwise it is the first record's file name. It then draws the first record's label, and one polygon fill for every record that has a colour, in list order.
- **Drawing primitives.** `MercatorHeatmap` provides the palette and `fillGrid`. `fillGrid` takes the cell's four corners at centre ± size/2, projects them, truncates them to `int` and emits them in the order tl, tr, br, bl. `addLabel` anchors its text at (50, height − 50).

Modules, one file each:

- `Outcomes`: `Option`, `Result` and `Outcome`.
- `JavaLang`: the Java library semantics the core relies on.
  - `String.equalsIgnoreCase` on ASCII letters.
  - `String.compareTo` and the sorted order it induces.
  - `Integer.toString` for non-negative values.
  - The `(int)` cast from `double`, which truncates toward zero and saturates.
- `Render`: `MercatorHeatmap.java`.
  - A `MercatorHeatmap` class whose drawing calls are recorded as commands.
  - `MercatorMap` as a value with a `MakeHeatmap` method that returns a fresh canvas.
- `Datasets`: the `Dataset` constructor, the colour bucket and the header predicate.
- `Grouping`: the frame key and the map-of-lists append, with the partition and ordering lemmas.
- `HeatmapApp`: the `Heatmap` class (`Add`, `LoadData`, `MakeFrames`) and a specification of the frames written.
  - The loop of `makeFrames` over the sorted keys is the method `WriteFrames`. It draws each frame with `DrawFrame`.
  - Both are proved equal to the functions `RenderFrames` and `FrameDrawing`.

Inputs the core receives from the outside are modelled as follows:

- The file's lines arrive already split, as `seq<seq<string>>`.
- `Double.parseDouble` is a parameter of type `string -> Option<real>`. `None` stands for the `NumberFormatException`.
- The Mercator projection is any function `(real, real) -> Xy`.
- A written PNG is a `FrameFile` value: its path and the drawing calls made on its canvas.

Two behaviours of the code are worth stating outright:

- An empty label is still drawn. `makeFrames` skips only a null label (Heatmap.java:203), and `String.split` never yields null, so `DrawFrame` always issues the label.
- A file mixing `auto` and explicit file names is accepted. One `auto` row switches every frame to numbered names, as `LoadData` and `MakeFrames` state.

A failed load writes no frames. A bad header exits the program, and a failing row's exception leaves the `Heatmap` constructor, so `makeFrames` never runs. The method `Run` models this part of `main`.

## Model

| member | source | states |
|---|---|---|
| `Datasets.ColorIndex` | src/main/java/com/traxel/Heatmap.java:63-66 | The bucket is in -1..8. It is -1 exactly when deviations < 2, and 8 when deviations ≥ 11. In between it is floor(deviations − 2). |
| `Datasets.ColorIndexMonotonic` | src/main/java/com/traxel/Heatmap.java:63-66 | A larger deviation never gets a lower bucket. |
| `Datasets.ColorOf` | src/main/java/com/traxel/Heatmap.java:63-67 | The colour is null exactly when deviations < 2. Otherwise it is the palette entry at the bucket, with alpha 1.0, and the last colour from deviations 11 up. |
| `Datasets.HeaderAccepted` | src/main/java/com/traxel/Heatmap.java:143-150 | Line 0 passes exactly when it has 6 fields and each field, lower-cased, is the matching column name. The short-circuit chain never reads a missing field. |
| `Datasets.Field` | src/main/java/com/traxel/Heatmap.java:54-55 | Reading field i yields it when present, and an index-out-of-bounds error at i otherwise. |
| `Datasets.Number` | src/main/java/com/traxel/Heatmap.java:56-59 | A numeric field succeeds exactly when it is present and parses, with the parsed value. |
| `Datasets.NewDataset` | src/main/java/com/traxel/Heatmap.java:53-67 | A row becomes a record exactly when it has ≥ 6 fields and fields 2-5 parse. The record holds those values and the bucket colour. A row of fewer than 3 fields fails at index \|row\|. |
| `Datasets.ParseRows` | src/main/java/com/traxel/Heatmap.java:140-174 | The records are the data rows' records, in order, up to the first row that throws. That row's exception is the error. Without an error every row became a record. |
| `Grouping.Insert` | src/main/java/com/traxel/Heatmap.java:160-170 | A row's key is its file name, or its label when the file name is exactly `auto` (case-sensitive). One append adds that key to the key set and appends the record to the key's list, creating the list if absent. |
| `Grouping.InsertOthersUnchanged` | src/main/java/com/traxel/Heatmap.java:165-170 | An append leaves every other key's list unchanged. |
| `Grouping.SelectAppend` | src/main/java/com/traxel/Heatmap.java:157-172 | The records of a key in a + b are those in a followed by those in b, so input order is kept. |
| `Grouping.SelectMembers` | src/main/java/com/traxel/Heatmap.java:160-164 | A key's records are exactly the input records with that key. |
| `Grouping.AddAllSelect` | src/main/java/com/traxel/Heatmap.java:157-172 | After a load, a key's list is its old list followed by that key's records in input order. A key is present exactly when it was before or has a record. |
| `Grouping.InsertWellFormed` | src/main/java/com/traxel/Heatmap.java:160-170 | An append keeps every list non-empty and every record under its own key. The `auto` flag is true whenever some record is named `auto`. |
| `Grouping.ExplicitNamesAreKeys` | src/main/java/com/traxel/Heatmap.java:160-164 | Without the `auto` flag, every record's file name is its group's key. |
| `Grouping.ConcatGroupsAppend` | src/main/java/com/traxel/Heatmap.java:165-170 | A one-key append adds the record exactly once to the records of any distinct key list that holds that key, and leaves them unchanged otherwise. |
| `Grouping.ConcatGroupsInsert` | src/main/java/com/traxel/Heatmap.java:160-170 | The same fact for one row's append to its own key. |
| `Grouping.GroupsPartition` | src/main/java/com/traxel/Heatmap.java:157-172 | Over any distinct key list covering the map, the groups hold exactly the loaded records as a multiset. Their total size is the number of data rows. |
| `HeatmapApp.Heatmap.constructor` | src/main/java/com/traxel/Heatmap.java:123-124 | A new Heatmap has an empty dataMap and the flag cleared. |
| `HeatmapApp.Heatmap.Add` | src/main/java/com/traxel/Heatmap.java:159-171 | dataMap becomes `Insert(old dataMap, row)`. The flag becomes the old flag or "file name is `auto`", so it is never cleared. The invariant is kept. |
| `HeatmapApp.Heatmap.LoadData` | src/main/java/com/traxel/Heatmap.java:136-175 | An empty file loads nothing. A bad header fails and changes nothing. Otherwise the data rows after line 0 load through `ParseRows`: dataMap gains exactly the parsed records, the flag is set iff one is named `auto`, and the first failing row's error is returned. |
| `HeatmapApp.Run` | src/main/java/com/traxel/Heatmap.java:113-114 | Frames are made only after a successful load. The run fails exactly on a bad header or a failing data row, with that error and no frames. An empty file writes nothing. Otherwise the frames are `LoadedFrames` of the parsed records. |
| `HeatmapApp.GroupedWellFormed` | src/main/java/com/traxel/Heatmap.java:157-172 | Loading from empty gives non-empty groups, each record under its own key, and the flag set exactly when some record is named `auto`. |
| `HeatmapApp.SortedKeysPresent` | src/main/java/com/traxel/Heatmap.java:182-188 | Under the invariant, every sorted key names a non-empty group, so `data.get(0)` is always defined. |
| `HeatmapApp.AnyAutoSnoc` | src/main/java/com/traxel/Heatmap.java:161-164 | The flag after one more row is the flag before, or that row is named `auto`. |
| `HeatmapApp.LoadStep` | src/main/java/com/traxel/Heatmap.java:157-173 | One more row that parses extends the loaded state by one `Insert`. |
| `HeatmapApp.ParsePrefixStops` | src/main/java/com/traxel/Heatmap.java:140-158 | When row n throws, the outcome is the records before it and its error; later rows are never read. |
| `HeatmapApp.SortKeys` | src/main/java/com/traxel/Heatmap.java:182-183 | The sorted key list is the unique strictly ascending enumeration of the key set. |
| `JavaLang.SortedSet` | src/main/java/com/traxel/Heatmap.java:182-183 | That enumeration is strictly increasing under `compareTo`, has one entry per key and holds exactly the keys. |
| `JavaLang.InsertSorted` | src/main/java/com/traxel/Heatmap.java:182-183 | Inserting a new key keeps the list strictly sorted, adds one entry and adds exactly that key. |
| `JavaLang.SortedUnique` | src/main/java/com/traxel/Heatmap.java:182-183 | Two strictly sorted lists with the same elements are equal. |
| `JavaLang.LeastExists` | src/main/java/com/traxel/Heatmap.java:182-183 | Every non-empty key set has a least key. |
| `JavaLang.CompareToZero` | src/main/java/com/traxel/Heatmap.java:183 | `compareTo` is 0 exactly on equal strings. |
| `JavaLang.CompareToAntisymmetric` | src/main/java/com/traxel/Heatmap.java:183 | `b.compareTo(a)` is `-a.compareTo(b)`. |
| `JavaLang.LessIrreflexive` | src/main/java/com/traxel/Heatmap.java:183 | No string sorts before itself. |
| `JavaLang.LessTransitive` | src/main/java/com/traxel/Heatmap.java:183 | The order is transitive. |
| `JavaLang.LessTotal` | src/main/java/com/traxel/Heatmap.java:183 | Of two different strings, one sorts first. |
| `JavaLang.CompareToCommonPrefix` | src/main/java/com/traxel/Heatmap.java:183 | A shared prefix does not affect the comparison. |
| `JavaLang.StrictlySortedDistinct` | src/main/java/com/traxel/Heatmap.java:183-185 | A strictly sorted key list visits no key twice. |
| `JavaLang.PrependSorted` | src/main/java/com/traxel/Heatmap.java:182-183 | Prepending a key smaller than the head keeps a list strictly sorted. |
| `HeatmapApp.SortedKeysExample` | src/main/java/com/traxel/Heatmap.java:182-185 | The day labels 2016-10-02, 2016-10-01 and 2016-10-03 are visited as 01, 02, 03. |
| `HeatmapApp.Heatmap.MakeFrames` | src/main/java/com/traxel/Heatmap.java:181-215 | The frames written are `RenderFrames` over the sorted key set: frame i has sequence number i. |
| `HeatmapApp.WriteFrames` | src/main/java/com/traxel/Heatmap.java:184-214 | The loop writes, for the i-th key, frame number i with its path and drawing, in key order. |
| `HeatmapApp.DrawFrame` | src/main/java/com/traxel/Heatmap.java:202-210 | A frame's drawing is the first record's label, then one fill per coloured record in list order. |
| `HeatmapApp.SeqNumDigitsValue` | src/main/java/com/traxel/Heatmap.java:192-195 | The padded number is all digits and denotes the sequence number. It has at least 4 digits, and exactly 4 below 10000. |
| `JavaLang.IntToStringValue` | src/main/java/com/traxel/Heatmap.java:192-195 | `"" + n` is all digits and denotes n. |
| `JavaLang.IntToStringLength` | src/main/java/com/traxel/Heatmap.java:192-195 | `"" + n` has k+1 digits when 10^k ≤ n < 10^(k+1). |
| `JavaLang.IntToStringMinLength` | src/main/java/com/traxel/Heatmap.java:195 | `"" + n` has more than k digits when n ≥ 10^k. |
| `JavaLang.LeadingZeroValue` | src/main/java/com/traxel/Heatmap.java:192-194 | A leading "0" does not change the value of a digit string. |
| `HeatmapApp.AutoFileNamesDistinct` | src/main/java/com/traxel/Heatmap.java:191-196 | Different sequence numbers give different numbered file names. |
| `HeatmapApp.NumberedNamesExample` | src/main/java/com/traxel/Heatmap.java:191-196 | Frames 0, 42 and 12345 are named 0000.png, 0042.png and 12345.png. |
| `HeatmapApp.FramePaths` | src/main/java/com/traxel/Heatmap.java:190-200 | Frame i's path is `framePath + "/" +` either the padded number i + ".png" (numbered run) or the frame's key, which is its first record's file name. |
| `HeatmapApp.FramePathsDistinct` | src/main/java/com/traxel/Heatmap.java:190-200 | No two frames are written to the same path. |
| `HeatmapApp.FrameLabels` | src/main/java/com/traxel/Heatmap.java:203-205 | In a run whose records are all named `auto`, frame i is labelled with the i-th sorted key. |
| `HeatmapApp.FillsAppend` | src/main/java/com/traxel/Heatmap.java:206-210 | The fills of a + b are those of a, then those of b, so list order is kept. |
| `HeatmapApp.FillsCoverColored` | src/main/java/com/traxel/Heatmap.java:206-210 | Every record with a colour is filled, and there are no more fills than records. |
| `HeatmapApp.FillsFromColored` | src/main/java/com/traxel/Heatmap.java:206-210 | Every fill is the cell of a record with a colour, drawn with that record's position, width and colour. |
| `Render.PaletteShape` | src/main/java/com/traxel/heatmap/MercatorHeatmap.java:19-30 | Nine colours, each with alpha 1.0, from blue to red. |
| `Render.CellCorners` | src/main/java/com/traxel/heatmap/MercatorHeatmap.java:77-84 | The corners form a size × size cell centred on the point. North and south corners share latitudes; west and east corners share longitudes. |
| `Render.VertexOrder` | src/main/java/com/traxel/heatmap/MercatorHeatmap.java:77-84 | Vertices 0, 1 lie at centre + size/2 latitude and 2, 3 at centre − size/2. Vertices 0, 3 lie at centre − size/2 longitude and 1, 2 at centre + size/2. |
| `Render.CellPolygon` | src/main/java/com/traxel/heatmap/MercatorHeatmap.java:77-89 | Both arrays have 4 entries. Entry j is the `(int)` cast of vertex j's projected x or y, in the order tl, tr, br, bl. |
| `JavaLang.JavaIntCast` | src/main/java/com/traxel/heatmap/MercatorHeatmap.java:88-89 | The cast truncates toward zero and saturates at the 32-bit int range. |
| `JavaLang.JavaIntCastIsNotFloor` | src/main/java/com/traxel/heatmap/MercatorHeatmap.java:88-89 | The cast of −0.5 is 0, not floor's −1. |
| `Render.FillCommand` | src/main/java/com/traxel/heatmap/MercatorHeatmap.java:88-92 | A fill is a 4-point polygon of the cell painted exactly in the given colour. |
| `Render.LabelCommand` | src/main/java/com/traxel/heatmap/MercatorHeatmap.java:63-66 | A label is drawn in black, font size 50, at (50, height − 50). |
| `Render.MercatorHeatmap.constructor` | src/main/java/com/traxel/heatmap/MercatorHeatmap.java:48-53 | A new canvas has the map's height and projection and no drawing. |
| `Render.MercatorHeatmap.AddLabel` | src/main/java/com/traxel/heatmap/MercatorHeatmap.java:63-67 | The canvas gains exactly the label command. |
| `Render.MercatorHeatmap.FillGrid` | src/main/java/com/traxel/heatmap/MercatorHeatmap.java:73-93 | The canvas gains exactly the cell's fill command. |
| `Render.MakeHeatmap` | src/main/java/com/traxel/heatmap/MercatorMap.java:43-46 | Every frame gets a fresh, empty canvas with the map's height and projection. |
| `JavaLang.EqualsIgnoreCaseIff` | src/main/java/com/traxel/Heatmap.java:145-150 | On ASCII letters, `equalsIgnoreCase` holds exactly when the lower-cased strings are equal. |

## Left out

- The Mercator projection's numerics (`Math.tan`, `Math.log` and the calibration in `MercatorProjection.java`). The projection is an arbitrary function, and nothing is claimed about where a corner lands.
- Image I/O and rasterisation: `ImageIO.read`, the raster copy in `MercatorMap.clone`, `Graphics2D` and fonts, and `writePng`. A frame is its path plus the recorded drawing calls. The font family comes from the graphics context and is not modelled; only size 50 is.
- Reading the file with `BufferedReader`, `String.split("\t")` (including its dropping of trailing empty fields), the `Args` parsing, `mkdirs`, the `argv.length != 7` usage path and the usage text. Rows arrive already split.
- `Double.parseDouble` is a parameter. NaN and infinite values are outside `real`; with NaN the Java code would fall through to bucket 0.
- Float and double rounding. Coordinates, widths, scores and colour components are exact reals.
- `imgSeqNum` int overflow is not modelled; the sequence number is unbounded.
- `synchronized (dataMap)` blocks. The program is single-threaded, so they change nothing.
- All `System.out.println` logging, including the "Improper Header Row" message. The bad header becomes `Fail(ImproperHeader(line))` in place of `System.exit(1)`.
- `HeatmapApp.Heatmap.LoadData`: an exception from a data row stops loading with that row's error. Java would leave the constructor by the exception; the model returns the error instead. The partial state left after a failure can be reached in the model but never in Java; `Run` never makes frames from it.
- `JavaLang.EqualsIgnoreCaseIff`: case folding is modelled for ASCII letters only. Java's `equalsIgnoreCase` also folds other Unicode letters.
- `JavaLang.CompareTo` compares `char` values. This matches Java's UTF-16 code-unit order only for characters of the Basic Multilingual Plane.
- Java's `ArrayList` aliasing: the list fetched from dataMap is updated in place and is the same object the map holds. The model writes the new list value back into the map. `Collections.sort` is modelled by the `SortKeys` loop, which inserts into a sorted list and is proved equal to the one strictly ascending enumeration.
- `HeatmapApp.FrameLabels` is stated for runs whose every record is named `auto`. In general the label is the first record's label, as `FrameDrawing` defines, and the null check before `addLabel` always passes because `String.split` never yields null.

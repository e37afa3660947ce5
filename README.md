# Sectional chart tiles, modelled in Dafny

This project models the tile-generation core of a small toolchain. The toolchain turns FAA sectional-chart GeoTIFFs into a web-map tile tree. Three scripts are modelled:

- `scripts/make_slippy_tile.py` (module `SlippyTiles`) is the compositing tiler.
  - For each zoom level it collects the tiles that any raster covers. It drops repeats and keeps first-seen order.
  - For each tile it renders a 512x512 RGBA image under a lock file.
  - Each raster of the tile is reprojected, and each band is stretched linearly onto 0..255.
  - The raster is then pasted through a mask of its non-zero pixels, so later rasters win where they overlap.
  - A raster that has neither 3 nor 4 bands raises `ValueError`. A raster that cannot be opened or reprojected raises too.
- `scripts/make_tiles.py` (module `MaxMergeTiles`) is the max-merge tiler.
  - For each tile of the global grid it reprojects every `.tif` whose bounds strictly overlap the tile.
  - It merges those rasters sample by sample with `np.maximum` and drops rasters that raise.
  - It writes `<out>/<z>/<x>/<y>.png` only when at least one raster contributed.
  - PIL encodes a uint8 tile only with 2, 3 or 4 bands. With any other `tile_bands` the first filled tile raises `TypeError` outside the try block, and that ends the run.
- `scripts/extract_sectional_charts.py` (module `ChartExtraction`, with `CivilDates`) is the chart extractor.
  - It picks the newest dated `.htm` page, stamps `update_metadata.json` with its ISO date plus `Z`, and warns when that date is 56 or more days old.
  - It clips every `.tif` that has a matching shapefile and lists it in the metadata.
  - Palette rasters are expanded through their colour map, and nodata pixels become transparent.

Shared pieces:

- `Common` holds bytes, RGBA pixels, mercantile tiles and `Option`.
- `PyStrings` holds the Python string operations the scripts rely on: `str.endswith`, `str.replace`, `str(int)` and two-argument `os.path.join`.
- `TilePaths` holds the `<root>/<z>/<x>/<y>.png` layout and the `.lock` path next to it.

External calls are parameters of the model:

- rasterio reprojection, opening a raster and reading its bounds;
- mercantile tile enumeration;
- the page-date parser (BeautifulSoup plus `strptime`);
- `datetime.now()`;
- `os.path.exists`.

The file system is a map from path to contents. The two process-level loops are methods proved against fold functions. Lemmas state what those folds guarantee.

Where the code and the documented design disagree, the model follows the code:

- make_slippy_tile.py saves a tile even when every pixel is transparent (`SlippyTiles.TransparentTileStillSaved`). It has no skip for empty tiles.
- A raster with an unsupported band count is not isolated to that raster. It raises out of process_tile, so the tile is not saved (`SlippyTiles.CompositeFailsIff`).
- `pool.imap_unordered` re-raises that exception in the driver loop, which ends the whole run (`SlippyTiles.BatchAbortsIff`). The failure does not stay with one task.
- The same holds for a raster that `rasterio.open` or `reproject` cannot handle inside process_tile (scripts/make_slippy_tile.py:179, 198). Nothing catches that exception either (`SlippyTiles.CompositeFailsIff`).
- A raster whose bounds cannot be read or transformed while the task list is built (scripts/make_slippy_tile.py:241-254) ends the run before any tile of that level is written (`SlippyTiles.Coverage`, `SlippyTiles.RunZoomsAbortsIff`).
- make_tiles.py catches raster errors but not save_tile's. With a `tile_bands` outside 2..4, the first filled tile ends create_tiles and no tile is ever written (`MaxMergeTiles.ZoomLevelsAbortsIff`).
- Band normalisation takes its min and max over every destination pixel. Nodata is not excluded.
- No single-tile or single-column regeneration mode exists in the code. Nothing models one.

## Model

| member | source | states |
|---|---|---|
| SlippyTiles.MinOf | scripts/make_slippy_tile.py:208 | np.min of a band is one of its values and at most every value |
| SlippyTiles.MaxOf | scripts/make_slippy_tile.py:209 | np.max of a band is one of its values and at least every value |
| SlippyTiles.RatioInUnitInterval | scripts/make_slippy_tile.py:210-211 | when min != max, (v - min) / (max - min) lies in [0, 1], so the uint8 cast never wraps |
| SlippyTiles.ScaleEndpoints | scripts/make_slippy_tile.py:211 | the band minimum maps to 0 and the maximum to 255 |
| SlippyTiles.ScaleMonotone | scripts/make_slippy_tile.py:211 | the linear stretch with truncation never reverses the order of two values |
| SlippyTiles.NormaliseBand | scripts/make_slippy_tile.py:208-213 | a constant band becomes all zero; otherwise min pixels become 0 and max pixels 255 |
| SlippyTiles.NormaliseMonotone | scripts/make_slippy_tile.py:208-213 | normalisation keeps the order of any two pixels of a band |
| SlippyTiles.NormaliseSpansRange | scripts/make_slippy_tile.py:208-213 | a non-constant band uses both 0 and 255 after normalisation |
| SlippyTiles.NormaliseBands | scripts/make_slippy_tile.py:196-215 | the band loop yields one normalised band per reprojected band, in order |
| SlippyTiles.NormaliseAll | scripts/make_slippy_tile.py:193-215 | reprojected_data has exactly dataset.count bands |
| SlippyTiles.MaxAcrossBands | scripts/make_slippy_tile.py:226 | np.max over axis 0 is one band's sample and at least every band's sample |
| SlippyTiles.Mask | scripts/make_slippy_tile.py:226 | the mask is 255 exactly where some band is non-zero and 0 elsewhere |
| SlippyTiles.SourceImage | scripts/make_slippy_tile.py:218-221 | a 3- or 4-band raster becomes one RGBA pixel per tile pixel |
| SlippyTiles.Paste | scripts/make_slippy_tile.py:229 | pasting through a 0/255 mask takes the source pixel where the mask is 255 and keeps the tile pixel elsewhere |
| SlippyTiles.Blank | scripts/make_slippy_tile.py:176 | the starting tile has 512x512 pixels |
| SlippyTiles.Paint | scripts/make_slippy_tile.py:217-229 | painting one raster replaces exactly its covered pixels by its own pixels |
| SlippyTiles.Composite | scripts/make_slippy_tile.py:176-229 | a rendered tile always has 512x512 pixels |
| SlippyTiles.CompositeFailsIff | scripts/make_slippy_tile.py:178-223 | the tile fails exactly when some raster cannot be opened or reprojected, or has a band count other than 3 or 4 |
| SlippyTiles.CompositeFailureSticks | scripts/make_slippy_tile.py:178-223 | once a raster raises, no later raster rescues the tile |
| SlippyTiles.LastCoverWins | scripts/make_slippy_tile.py:226-229 | each pixel shows the last raster whose mask covers it |
| SlippyTiles.UncoveredStaysTransparent | scripts/make_slippy_tile.py:176-229 | a pixel that no raster covers stays (0, 0, 0, 0) |
| SlippyTiles.TransparentTileStillSaved | scripts/make_slippy_tile.py:176-232 | a tile that no raster covers is still saved, fully transparent |
| SlippyTiles.SourceOf | scripts/make_slippy_tile.py:179-215 | a raster that opens and reprojects gives one normalised band per band; one that raises gives nothing |
| SlippyTiles.ReadSource | scripts/make_slippy_tile.py:179-215 | the band loop of one raster computes exactly that source |
| SlippyTiles.TaskSources | scripts/make_slippy_tile.py:178-215 | one source per raster path of the task, in order, each failed exactly where its read raised |
| SlippyTiles.PaintOver | scripts/make_slippy_tile.py:217-229 | pasting one raster into the tile array in place leaves the tile painted with that raster |
| SlippyTiles.ProcessTile | scripts/make_slippy_tile.py:166-232 | process_tile writes the tile path, locks the path plus `.lock`, and saves the composite, or raises when a raster cannot be read, reprojected or merged |
| SlippyTiles.FlattenMembership | scripts/make_slippy_tile.py:240-255 | a tile is among the collected tiles iff some raster covers it |
| SlippyTiles.FirstSeen | scripts/make_slippy_tile.py:255-259 | the processed_tiles filter keeps each tile once and loses none |
| SlippyTiles.IndexOf | scripts/make_slippy_tile.py:255-259 | the first position at which a tile was seen |
| SlippyTiles.FirstSeenOrder | scripts/make_slippy_tile.py:255-259 | kept tiles appear in the order in which they were first seen |
| SlippyTiles.FirstSeenAppend | scripts/make_slippy_tile.py:256-259 | a seen tile is skipped and a new one is appended |
| SlippyTiles.TasksAppend | scripts/make_slippy_tile.py:258 | appending a tile appends its task tuple |
| SlippyTiles.TileInfosProperties | scripts/make_slippy_tile.py:237-259 | tile_infos holds each covered tile exactly once, in first-seen order, with the shared paths, zoom and root |
| SlippyTiles.AddRasterTiles | scripts/make_slippy_tile.py:255-259 | the loop over one raster's tiles appends a task for each tile not yet processed and marks it processed |
| SlippyTiles.BuildTileInfos | scripts/make_slippy_tile.py:237-259 | the dedup loop builds exactly that task list |
| SlippyTiles.Coverage | scripts/make_slippy_tile.py:240-254 | the tiles of every raster, in raster order, or nothing exactly when reading some raster's bounds raises |
| SlippyTiles.TileInfosDistinctPaths | scripts/make_slippy_tile.py:169-171 | no two tasks of one zoom level write the same file |
| SlippyTiles.Outcomes | scripts/make_slippy_tile.py:261-264 | one process_tile outcome per task |
| SlippyTiles.RunTileInfos | scripts/make_slippy_tile.py:261-264 | the pool records the tasks' outcomes in order until one raises |
| SlippyTiles.RunZoom | scripts/make_slippy_tile.py:237-264 | one zoom level builds its task list, then runs it; a raster whose bounds cannot be read ends the run |
| SlippyTiles.CreateSlippyTiles | scripts/make_slippy_tile.py:235-264 | zoom levels run from start to end inclusive, in increasing order, until something raises |
| SlippyTiles.BatchAbortsIff | scripts/make_slippy_tile.py:261-264 | a zoom level's batch ends the run iff some task's tile raised |
| SlippyTiles.BatchWritesEachTask | scripts/make_slippy_tile.py:261-264 | a batch without failures writes every task's tile and leaves every other tile file of the modelled tree alone |
| SlippyTiles.BatchOrderIrrelevant | scripts/make_slippy_tile.py:261-264 | a batch without failures gives the same tree in whatever order tasks finish |
| SlippyTiles.BatchKeepsFiles | scripts/make_slippy_tile.py:261-264 | a batch never removes a tile file |
| SlippyTiles.ZoomStepAbortsIff | scripts/make_slippy_tile.py:236-264 | one zoom level ends the run exactly when reading a raster's bounds raises or one of its tasks raises |
| SlippyTiles.RunZoomsAbortsIff | scripts/make_slippy_tile.py:235-264 | the run over zoom levels start to end ends early exactly when some level in that range fails |
| SlippyTiles.RunZoomsKeepsFiles | scripts/make_slippy_tile.py:235-264 | no zoom level removes a tile file, whether or not the run ends early |
| TilePaths.LockPath | scripts/make_slippy_tile.py:172 | the lock path is the tile path followed by `.lock` |
| TilePaths.TilePathLayout | scripts/make_tiles.py:171-173 | a tile path is the root joined with `z/x/y.png` and ends in `.png` |
| TilePaths.TilePathInjective | scripts/make_slippy_tile.py:169-171 | distinct (z, x, y) give distinct tile paths under one root |
| TilePaths.LockPathIsNoTilePath | scripts/make_slippy_tile.py:171-172 | a lock file never coincides with any tile file |
| PyStrings.ReplaceWithoutOccurrence | scripts/extract_sectional_charts.py:356 | str.replace leaves a string without the pattern unchanged |
| PyStrings.ReplaceFinalOccurrence | scripts/extract_sectional_charts.py:349 | str.replace of a trailing, only occurrence of an unbordered pattern swaps just that suffix |
| PyStrings.Digits | scripts/make_slippy_tile.py:169-171 | str of a natural number is non-empty decimal digits without a leading zero |
| PyStrings.Str | scripts/make_slippy_tile.py:169-171 | str(int) is non-empty and contains no `/` |
| PyStrings.DigitsRoundTrip | scripts/make_slippy_tile.py:169-171 | the digits of n read back as n |
| PyStrings.StrRoundTrip | scripts/make_slippy_tile.py:169-171 | int(str(n)) == n, negative numbers included |
| PyStrings.StrInjective | scripts/make_slippy_tile.py:169-171 | distinct integers print differently |
| PyStrings.JoinRelative | scripts/make_tiles.py:171-173 | joining a relative name puts it after the root, adding `/` only when the root is non-empty and does not end in one |
| MaxMergeTiles.OverlapsIffCommonInterior | scripts/make_tiles.py:149-152 | the four strict comparisons hold iff the tile and the raster share an interior point |
| MaxMergeTiles.Zeros | scripts/make_tiles.py:140 | np.zeros has tile_bands bands of tile_size squared samples |
| MaxMergeTiles.MaxMerge | scripts/make_tiles.py:154 | np.maximum is above both inputs and each sample comes from one of them |
| MaxMergeTiles.StackExtensionality | scripts/make_tiles.py:154 | two same-shaped stacks that agree on every sample are equal |
| MaxMergeTiles.MaxMergeCommutes | scripts/make_tiles.py:154 | the merge does not depend on argument order |
| MaxMergeTiles.MaxMergeAssociates | scripts/make_tiles.py:154 | the merge does not depend on grouping |
| MaxMergeTiles.MaxMergeAbsorbs | scripts/make_tiles.py:154 | merging in data that is already below changes nothing |
| MaxMergeTiles.MaxMergeTwice | scripts/make_tiles.py:154 | merging the same raster twice is the same as merging it once |
| MaxMergeTiles.MaxMergeMonotone | scripts/make_tiles.py:154 | larger inputs give a larger merge |
| MaxMergeTiles.MergeAll | scripts/make_tiles.py:140-157 | folding the merges keeps the tile's shape |
| MaxMergeTiles.MergeAllIsPointwiseMax | scripts/make_tiles.py:140-157 | the merged tile is above the zeros and every contribution, and each sample comes from one of them |
| MaxMergeTiles.MergeAllOrderIrrelevant | scripts/make_tiles.py:143-157 | the merged tile depends only on the set of contributions |
| MaxMergeTiles.MergeOfZerosIsZero | scripts/make_tiles.py:140-157 | merging only zero data leaves the tile zero |
| MaxMergeTiles.WarpBands | scripts/make_tiles.py:113-123 | reprojecting bands 1..n gives n bands, band i being reprojection i + 1 |
| MaxMergeTiles.WarpBandsFailureSticks | scripts/make_tiles.py:113-123 | a band that raises aborts the rest of the band loop |
| MaxMergeTiles.WarpBandsFailsIff | scripts/make_tiles.py:113-123 | the band loop raises iff the reprojection of some band 1..n raises |
| MaxMergeTiles.Reprojected | scripts/make_tiles.py:105-125 | the destination has tile_bands bands of tile_size squared samples |
| MaxMergeTiles.ReprojectedFillsLeadingBands | scripts/make_tiles.py:111-125 | bands below min(count, tile_bands) are reprojected, the rest stay zero, and it raises iff a reprojected band raises |
| MaxMergeTiles.ReprojectToTile | scripts/make_tiles.py:105-125 | the loop over destination bands computes exactly that destination |
| MaxMergeTiles.Contributions | scripts/make_tiles.py:143-157 | each contributing raster gives a tile-shaped stack |
| MaxMergeTiles.TileData | scripts/make_tiles.py:140-157 | the merged tile has tile_bands bands of tile_size squared samples |
| MaxMergeTiles.TryRaster | scripts/make_tiles.py:144-157 | the body for one listed name: a `.tif` that opens, overlaps and reprojects contributes, and anything else contributes nothing |
| MaxMergeTiles.MergeTile | scripts/make_tiles.py:140-157 | the file loop yields the merged data and whether any raster contributed |
| MaxMergeTiles.ContributionsMembers | scripts/make_tiles.py:143-157 | a stack is merged in iff some listed name contributes it |
| MaxMergeTiles.FilledIffSomeContributor | scripts/make_tiles.py:141-155 | tile_filled holds iff some listed name contributed |
| MaxMergeTiles.FailingNameIgnored | scripts/make_tiles.py:146-157 | a name that raises or is skipped is as if it were not listed |
| MaxMergeTiles.ListingOrderIrrelevant | scripts/make_tiles.py:143 | the listing order of os.listdir changes neither the data nor tile_filled |
| MaxMergeTiles.FilledTileMayBeZero | scripts/make_tiles.py:153-160 | contributions that are all zero leave a tile that is filled but zero |
| MaxMergeTiles.Interleave | scripts/make_tiles.py:168 | the transpose gives one pixel per sample position, with one value per band |
| MaxMergeTiles.InterleaveRoundTrip | scripts/make_tiles.py:168 | transposing back recovers the band stack, so no sample is lost |
| MaxMergeTiles.SaveTile | scripts/make_tiles.py:162-174 | save_tile raises, writing nothing, exactly when the band count is not 2, 3 or 4; otherwise it writes the transposed data at `<out>/<z>/<x>/<y>.png` and nothing else |
| MaxMergeTiles.CreateTile | scripts/make_tiles.py:140-160 | one tile: the merged data is saved if the tile is filled, and saving may raise |
| MaxMergeTiles.ZoomTilesAbortSticks | scripts/make_tiles.py:133-160 | once save_tile has raised, the rest of the level changes nothing |
| MaxMergeTiles.CreateZoomTiles | scripts/make_tiles.py:133-160 | one zoom level's tile loop gives the fold over its grid, and stops at the first save that raises |
| MaxMergeTiles.CreateTiles | scripts/make_tiles.py:127-160 | create_tiles runs zoom levels start to end inclusive, until save_tile raises |
| MaxMergeTiles.ZoomTilesAbortsIff | scripts/make_tiles.py:133-169 | a level raises exactly when the band count is not 2, 3 or 4 and some tile is filled, and then it has written nothing |
| MaxMergeTiles.ZoomTilesWritesFilled | scripts/make_tiles.py:159-160 | with 2, 3 or 4 bands the level completes and every filled tile of it is written with its merged data |
| MaxMergeTiles.ZoomTilesWritesNothingElse | scripts/make_tiles.py:159-160 | every other file is unchanged |
| MaxMergeTiles.UnfilledTileNotWritten | scripts/make_tiles.py:159-160 | an unfilled tile's path is neither created nor changed |
| MaxMergeTiles.ZoomTilesKeepsFiles | scripts/make_tiles.py:130-160 | no file is ever removed |
| MaxMergeTiles.ZoomLevelsKeepsFiles | scripts/make_tiles.py:130-160 | no zoom level removes a file, whether or not the run ends early |
| MaxMergeTiles.ZoomLevelsAbortsIff | scripts/make_tiles.py:130-169 | create_tiles ends early exactly when the band count is not 2, 3 or 4 and some level in range has a filled tile, and then it has written nothing |
| MaxMergeTiles.ZoomLevelsWritesNothingElse | scripts/make_tiles.py:130-160 | after the levels, every file was there before, unchanged, or is the path of a filled tile of one of those levels |
| MaxMergeTiles.LaterLevelsKeepTile | scripts/make_tiles.py:130-173 | later zoom levels never touch a tile path of an earlier level |
| MaxMergeTiles.ZoomLevelsWritesFilled | scripts/make_tiles.py:130-160 | with 2, 3 or 4 bands create_tiles runs every level and every filled tile of every level ends up at its path with its merged data |
| CivilDates.DaysBeforeYearStep | scripts/extract_sectional_charts.py:335 | each year adds its own length to the day count |
| CivilDates.DaysBeforeYearMonotone | scripts/extract_sectional_charts.py:335 | later years start after earlier years end |
| CivilDates.DaysBeforeMonthStep | scripts/extract_sectional_charts.py:335 | each month adds its own length, and December ends within the year |
| CivilDates.DaysBeforeMonthMonotone | scripts/extract_sectional_charts.py:335 | later months start after earlier months end |
| CivilDates.OrdinalMonotone | scripts/extract_sectional_charts.py:225 | the comparison of datetimes agrees with the comparison of their day numbers |
| CivilDates.OrdinalInjective | scripts/extract_sectional_charts.py:225 | distinct dates have distinct day numbers |
| CivilDates.Pad | scripts/extract_sectional_charts.py:330 | a zero-padded field has exactly the requested width |
| CivilDates.PadRoundTrip | scripts/extract_sectional_charts.py:330 | a zero-padded field reads back as its number |
| CivilDates.IsoRoundTrip | scripts/extract_sectional_charts.py:330 | isoformat at midnight is 19 characters and reads back as the date |
| CivilDates.IsoInjective | scripts/extract_sectional_charts.py:330 | distinct dates have distinct `last_updated` stamps |
| CivilDates.AgeDaysIsOrdinalDifference | scripts/extract_sectional_charts.py:335 | (now - date).days is the difference of day numbers, whatever the time of day |
| CivilDates.StaleIffFiftySixDaysLater | scripts/extract_sectional_charts.py:335 | the warning fires iff today is at least 56 days after the chart date |
| CivilDates.StaleForEarlierDate | scripts/extract_sectional_charts.py:335 | an older chart date is stale whenever a newer one is |
| ChartExtraction.ApplyColormap | scripts/extract_sectional_charts.py:302-309 | raises iff some index is missing from the colour map; otherwise gives a fresh same-size image of colormap[index] |
| ChartExtraction.ClearNodata | scripts/extract_sectional_charts.py:259 | pixels whose index is nodata become (0, 0, 0, 0) and the others are kept |
| ChartExtraction.KeepNodata | scripts/extract_sectional_charts.py:279-280 | the non-palette nodata loop leaves every sample unchanged |
| ChartExtraction.ProcessGeotiff | scripts/extract_sectional_charts.py:235-299 | nothing is written when the clip fails; a palette raster is never written as raw bands: it becomes a colour-mapped RGBA image with nodata transparent, or nothing exactly when a colour lookup raises; other rasters are written unchanged; the clipped array itself is never modified |
| ChartExtraction.LatestDateFromHtml | scripts/extract_sectional_charts.py:210-233 | returns None, None iff no `.htm` page has a date; otherwise the first page with the greatest date, and that date |
| ChartExtraction.LatestStays | scripts/extract_sectional_charts.py:225-227 | a page that is not strictly newer keeps the current latest |
| ChartExtraction.LatestTakesOver | scripts/extract_sectional_charts.py:225-227 | the first dated page, or a strictly newer one, becomes the latest |
| ChartExtraction.LatestIsUnique | scripts/extract_sectional_charts.py:225-227 | the chosen latest page is determined by the listing |
| ChartExtraction.LatestIsMaximal | scripts/extract_sectional_charts.py:225-227 | no dated page is newer than the chosen one |
| ChartExtraction.HtmlPagesIgnored | scripts/extract_sectional_charts.py:215 | `.html` pages are never read |
| ChartExtraction.TiffFiles | scripts/extract_sectional_charts.py:345 | every kept name ends in `.tif` |
| ChartExtraction.TiffFilesMembers | scripts/extract_sectional_charts.py:345 | a name is kept iff it is listed and ends in `.tif` |
| ChartExtraction.ChartedMembers | scripts/extract_sectional_charts.py:353 | a chart is processed iff it is a `.tif` whose shapefile exists |
| ChartExtraction.BuildMaps | scripts/extract_sectional_charts.py:347-360 | one map entry and one clip job per charted file, in order |
| ChartExtraction.TifUnbordered | scripts/extract_sectional_charts.py:349 | no proper prefix of `.tif` is also its suffix |
| ChartExtraction.ChartNames | scripts/extract_sectional_charts.py:349-356 | for `<stem>.tif` the map name is the stem and the shapefile is `<stem>.shp` |
| ChartExtraction.ExtractCharts | scripts/extract_sectional_charts.py:311-369 | no metadata iff no dated page; otherwise a stamp from the latest date, a warning iff it is stale, and one entry and job per charted `.tif` |

## Left out

- Raster I/O, reprojection, mercantile's tile enumeration and bounds, the shapefile read and `rasterio.mask` are external. They are parameters of the model (functions or given data), not computed.
- IEEE float arithmetic is modelled with exact reals. The float32 rounding of a reprojected band and of the normalisation is not captured.
- `Decimal` round-trips of the tile bounds do not change a float and are not modelled.
- The worker pool is modelled as running tasks one after the other in task order.
  - The first task that raises ends the run.
  - Which other tiles a real pool finishes before it stops is not modelled.
  - The file locks are modelled only as the lock path each task holds. FileLock leaves `<y>.png.lock` behind (scripts/make_slippy_tile.py:174); lock files are not part of the modelled tree.
- SlippyTiles.Paste handles masks of 0 and 255 only. These are the only values process_tile builds; PIL's blending for other mask values is not modelled.
- PIL's image encoding, `Image.merge` and `convert('RGBA')` are pixel-level functions. PNG bytes are not modelled, and a tile file's contents are its pixels.
- The non-uint8 branch of save_tile (scripts/make_tiles.py:164-165) cannot run. Tile data there is always uint8 (`MaxMergeTiles.Stack` holds bytes), so the branch is omitted.
- The `Exception` caught by get_latest_date_from_html and process_geotiff is modelled only for the failures the model can see: a page without a parsable date and a missing colour-map entry. Other file errors are left out.
- The page-date parser (BeautifulSoup, the `dc.date` meta tag and `strptime`) is the parameter `pageDate`. `datetime.now()` is the parameter `now`.
- `os.path.exists` is the parameter `shapefileExists`.
- `os.listdir` is a given listing. The two listings in main are taken to be the same.
- Writing `update_metadata.json` as JSON text is left out. The model returns the metadata record.
- `process_geotiff`'s output file is modelled as the returned image. GeoTIFF metadata (transform, compression, CRS) is not modelled.
- The modelled tile trees hold tile images only. Directories are not modelled: process_tile creates `<root>/<z>/<x>` before taking the lock, even for a task that then raises (scripts/make_slippy_tile.py:170), and save_tile creates its folder (scripts/make_tiles.py:171-172). Lock files are not modelled either.
- Logging, progress bars, console colours and argument parsing are left out.
- PIL's handling of a zero-sized image (`tile_size` 0) is not modelled; such a tile is written like any other.
- scripts/reproject_tif.py and the command-line `main` functions of the two tilers are not part of this model.
- `find_all_geotiffs` and the commented-out code in the scripts are not modelled.

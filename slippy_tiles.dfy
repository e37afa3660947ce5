/**
 * The slippy-tile compositing engine of make_slippy_tile.py.
 *
 * For every zoom level the tiles that intersect each raster are collected
 * into a task list without repeats, in first-seen order. Each task renders
 * one 512x512 RGBA tile: every raster listed in the task is reprojected onto
 * the tile (an external call, taken here as given float bands), each band is
 * stretched linearly onto 0..255, and the raster is painted over the tile
 * through a mask of the pixels where some band is non-zero, so later rasters
 * win where they overlap. A raster whose band count is neither 3 nor 4 raises
 * ValueError and the tile is not saved.
 *
 * Pixels are stored row-major: pixel (row, col) of the tile is index
 * row * TileSize + col.
 */
module SlippyTiles {
  import opened Common
  import opened PyStrings
  import opened TilePaths

  /** Width and height of every tile (`Image.new('RGBA', (512, 512), ...)`). */
  const TileSize: nat := 512
  const TilePixels: nat := TileSize * TileSize

  /** One band as `reproject` leaves it in the float32 destination, one value per tile pixel. */
  type RawBand = s: seq<real> | |s| == TilePixels witness seq(TilePixels, _ => 0.0)

  /** One band after normalisation to uint8, one value per tile pixel. */
  type ByteBand = s: seq<Byte> | |s| == TilePixels witness seq(TilePixels, _ => 0)

  // ---------------------------------------------------------------------
  // Per-band normalisation
  // ---------------------------------------------------------------------

  /** np.min of a band. */
  function MinOf(s: seq<real>): (m: real)
    requires |s| > 0
    ensures exists i :: 0 <= i < |s| && s[i] == m
    ensures forall i :: 0 <= i < |s| ==> m <= s[i]
  {
    if |s| == 1 then s[0]
    else
      var t := MinOf(s[1..]);
      if s[0] <= t then s[0] else t
  }

  /** np.max of a band. */
  function MaxOf(s: seq<real>): (m: real)
    requires |s| > 0
    ensures exists i :: 0 <= i < |s| && s[i] == m
    ensures forall i :: 0 <= i < |s| ==> s[i] <= m
  {
    if |s| == 1 then s[0]
    else
      var t := MaxOf(s[1..]);
      if s[0] >= t then s[0] else t
  }

  /** The stretch `(v - lo) / (hi - lo)` lies in [0, 1] for a value of the band. */
  lemma RatioInUnitInterval(v: real, lo: real, hi: real)
    requires lo <= v <= hi && lo < hi
    ensures 0.0 <= (v - lo) / (hi - lo) <= 1.0
  {
    var q := (v - lo) / (hi - lo);
    assert q * (hi - lo) == v - lo;
  }

  /**
   * `((v - lo) / (hi - lo) * 255).astype(np.uint8)` for a value of a band
   * whose minimum is lo and maximum hi: the cast truncates a non-negative
   * value, which is its floor.
   */
  function Scale(v: real, lo: real, hi: real): (r: Byte)
    requires lo <= v <= hi && lo < hi
  {
    RatioInUnitInterval(v, lo, hi);
    ((v - lo) / (hi - lo) * 255.0).Floor
  }

  /** The band's minimum maps to 0 and its maximum to 255. */
  lemma ScaleEndpoints(lo: real, hi: real)
    requires lo < hi
    ensures Scale(lo, lo, hi) == 0 && Scale(hi, lo, hi) == 255
  {
    assert (hi - lo) / (hi - lo) == 1.0;
  }

  /** The stretch never reverses the order of two values of the band. */
  lemma ScaleMonotone(v: real, w: real, lo: real, hi: real)
    requires lo <= v <= w <= hi && lo < hi
    ensures Scale(v, lo, hi) <= Scale(w, lo, hi)
  {
    var a, b := (v - lo) / (hi - lo), (w - lo) / (hi - lo);
    assert a * (hi - lo) == v - lo;
    assert b * (hi - lo) == w - lo;
    assert a <= b;
    assert (a * 255.0).Floor as real <= a * 255.0 <= b * 255.0 < (b * 255.0).Floor as real + 1.0;
  }

  /**
   * The per-band normalisation of process_tile: a band whose minimum
   * differs from its maximum is stretched onto 0..255, a constant band
   * becomes all zeros.
   */
  function NormaliseBand(band: RawBand): (r: ByteBand)
    ensures MinOf(band) == MaxOf(band) ==> forall p :: 0 <= p < TilePixels ==> r[p] == 0
    ensures forall p :: 0 <= p < TilePixels && band[p] == MinOf(band) ==> r[p] == 0
    ensures MinOf(band) != MaxOf(band) ==>
      forall p :: 0 <= p < TilePixels && band[p] == MaxOf(band) ==> r[p] == 255
  {
    var lo, hi := MinOf(band), MaxOf(band);
    if lo != hi then
      ScaleEndpoints(lo, hi);
      seq(TilePixels, p requires 0 <= p < TilePixels => Scale(band[p], lo, hi))
    else
      seq(TilePixels, _ => 0)
  }

  /** Normalisation keeps the order of pixel values within a band. */
  lemma NormaliseMonotone(band: RawBand, p: nat, q: nat)
    requires p < TilePixels && q < TilePixels && band[p] <= band[q]
    ensures NormaliseBand(band)[p] <= NormaliseBand(band)[q]
  {
    var lo, hi := MinOf(band), MaxOf(band);
    if lo != hi {
      ScaleMonotone(band[p], band[q], lo, hi);
    }
  }

  /** A non-constant band reaches both ends of the byte range. */
  lemma NormaliseSpansRange(band: RawBand)
    requires MinOf(band) != MaxOf(band)
    ensures exists p :: 0 <= p < TilePixels && NormaliseBand(band)[p] == 0
    ensures exists p :: 0 <= p < TilePixels && NormaliseBand(band)[p] == 255
  {
    var r := NormaliseBand(band);
    var i :| 0 <= i < TilePixels && band[i] == MinOf(band);
    var j :| 0 <= j < TilePixels && band[j] == MaxOf(band);
    assert r[i] == 0 && r[j] == 255;
  }

  /** The band-by-band loop that fills `reprojected_data` (count x 512 x 512, uint8). */
  method NormaliseBands(raw: seq<RawBand>) returns (data: seq<ByteBand>)
    ensures |data| == |raw|
    ensures forall i :: 0 <= i < |raw| ==> data[i] == NormaliseBand(raw[i])
  {
    var buf := new ByteBand[|raw|];
    var i := 0;
    while i < |raw|
      invariant 0 <= i <= |raw|
      invariant forall k :: 0 <= k < i ==> buf[k] == NormaliseBand(raw[k])
    {
      buf[i] := NormaliseBand(raw[i]);
      i := i + 1;
    }
    data := buf[..];
  }

  // ---------------------------------------------------------------------
  // Mask and the RGBA image of one raster
  // ---------------------------------------------------------------------

  /** The normalised bands of one raster: the band count is the raster's count. */
  type Stack = seq<ByteBand>

  /** process_tile accepts 3-band (RGB) and 4-band (RGBA) rasters only. */
  predicate Supported(data: Stack) {
    |data| == 3 || |data| == 4
  }

  /**
   * One raster as process_tile meets it: its normalised bands, or None when
   * opening or reprojecting it raised.
   */
  type Source = Option<Stack>

  /** The raster was read and has a band count process_tile can merge. */
  predicate Renders(src: Source) {
    src.Some? && Supported(src.value)
  }

  /** `np.max(reprojected_data, axis=0)` at one pixel. */
  function MaxAcrossBands(data: Stack, p: nat): (m: Byte)
    requires |data| > 0 && p < TilePixels
    ensures exists b :: 0 <= b < |data| && data[b][p] == m
    ensures forall b :: 0 <= b < |data| ==> data[b][p] <= m
  {
    if |data| == 1 then data[0][p]
    else
      var t := MaxAcrossBands(data[1..], p);
      if data[0][p] >= t then data[0][p] else t
  }

  /** Some band of the raster is non-zero at pixel p. */
  predicate Covers(data: Stack, p: nat)
    requires p < TilePixels
  {
    exists b :: 0 <= b < |data| && data[b][p] > 0
  }

  /**
   * `(np.max(reprojected_data, axis=0) > 0).astype(np.uint8) * 255`: a
   * pixel is 255 exactly where some band, the alpha band of a 4-band raster
   * included, is non-zero, and 0 elsewhere.
   */
  function Mask(data: Stack): (m: seq<Byte>)
    requires |data| > 0
    ensures |m| == TilePixels
    ensures forall p :: 0 <= p < TilePixels ==> (m[p] == 255 || m[p] == 0)
    ensures forall p :: 0 <= p < TilePixels ==> (m[p] == 255 <==> Covers(data, p))
  {
    seq(TilePixels, p requires 0 <= p < TilePixels => if MaxAcrossBands(data, p) > 0 then 255 else 0)
  }

  /**
   * The pixel of the merged image: `Image.merge("RGB", ...).convert('RGBA')`
   * gives 3-band rasters alpha 255, `Image.merge("RGBA", ...)` keeps the
   * fourth band as alpha.
   */
  function SourcePixel(data: Stack, p: nat): Pixel
    requires Supported(data) && p < TilePixels
  {
    if |data| == 3 then Pixel(data[0][p], data[1][p], data[2][p], 255)
    else Pixel(data[0][p], data[1][p], data[2][p], data[3][p])
  }

  /** The merged RGBA image of one raster. */
  function SourceImage(data: Stack): (img: seq<Pixel>)
    requires Supported(data)
    ensures |img| == TilePixels
  {
    seq(TilePixels, p requires 0 <= p < TilePixels => SourcePixel(data, p))
  }

  /**
   * `tile_img.paste(image, (0, 0), mask)` for a mask of 0s and 255s: pixels
   * under 255 take the image's RGBA, pixels under 0 keep the tile's.
   */
  method Paste(tile: array<Pixel>, image: seq<Pixel>, mask: seq<Byte>)
    requires tile.Length == |image| == |mask|
    requires forall p :: 0 <= p < |mask| ==> mask[p] == 0 || mask[p] == 255
    modifies tile
    ensures forall p :: 0 <= p < tile.Length ==> tile[p] == if mask[p] == 255 then image[p] else old(tile[p])
  {
    forall p | 0 <= p < tile.Length && mask[p] == 255 {
      tile[p] := image[p];
    }
  }

  /** Lines 218-229 for one raster: merge its bands into an image, build the mask, paste. */
  method PaintOver(tile: array<Pixel>, data: Stack)
    requires tile.Length == TilePixels && Supported(data)
    modifies tile
    ensures tile[..] == Paint(old(tile[..]), data)
  {
    var image := SourceImage(data);
    var mask := Mask(data);
    Paste(tile, image, mask);
  }

  // ---------------------------------------------------------------------
  // Compositing: the painter's algorithm over the rasters of a task
  // ---------------------------------------------------------------------

  /** `Image.new('RGBA', (512, 512), (0, 0, 0, 0))`. */
  function Blank(): (img: seq<Pixel>)
    ensures |img| == TilePixels
  {
    seq(TilePixels, _ => Transparent)
  }

  /** One raster painted over the tile through its mask. */
  function Paint(canvas: seq<Pixel>, data: Stack): (r: seq<Pixel>)
    requires |canvas| == TilePixels && Supported(data)
    ensures |r| == TilePixels
    ensures forall p :: 0 <= p < TilePixels ==>
      r[p] == if Covers(data, p) then SourcePixel(data, p) else canvas[p]
  {
    var mask, image := Mask(data), SourceImage(data);
    seq(TilePixels, p requires 0 <= p < TilePixels => if mask[p] == 255 then image[p] else canvas[p])
  }

  /**
   * The tile after painting the rasters of a task in order, or None when a
   * raster could not be read or reprojected, or had an unsupported band
   * count and raised ValueError.
   */
  function Composite(sources: seq<Source>): (r: Option<seq<Pixel>>)
    ensures r.Some? ==> |r.value| == TilePixels
  {
    if sources == [] then Some(Blank())
    else
      match Composite(sources[..|sources| - 1])
      case None => None
      case Some(canvas) =>
        var last := sources[|sources| - 1];
        if Renders(last) then Some(Paint(canvas, last.value)) else None
  }

  /**
   * The tile is rendered exactly when every raster of the task was read and
   * reprojected and has 3 or 4 bands.
   */
  lemma {:induction false} CompositeFailsIff(sources: seq<Source>)
    ensures Composite(sources).None? <==> exists k :: 0 <= k < |sources| && !Renders(sources[k])
  {
    if sources != [] {
      var n := |sources| - 1;
      var prefix := sources[..n];
      CompositeFailsIff(prefix);
      if exists k :: 0 <= k < n && !Renders(prefix[k]) {
        var k :| 0 <= k < n && !Renders(prefix[k]);
        assert sources[k] == prefix[k];
      }
      if exists k :: 0 <= k < |sources| && !Renders(sources[k]) {
        var k :| 0 <= k < |sources| && !Renders(sources[k]);
        if k < n { assert prefix[k] == sources[k]; }
      }
    }
  }

  /**
   * Painter's algorithm: the last raster of the task that covers a pixel
   * decides it.
   */
  lemma {:induction false} LastCoverWins(sources: seq<Source>, p: nat, k: nat)
    requires Composite(sources).Some? && p < TilePixels && k < |sources|
    requires sources[k].Some? && Covers(sources[k].value, p)
    requires forall j :: k < j < |sources| && sources[j].Some? ==> !Covers(sources[j].value, p)
    ensures Supported(sources[k].value)
    ensures Composite(sources).value[p] == SourcePixel(sources[k].value, p)
  {
    var n := |sources| - 1;
    var prefix := sources[..n];
    if k < n {
      LastCoverWins(prefix, p, k);
    } else {
      assert Renders(sources[k]);
    }
  }

  /** A pixel that no raster of the task covers stays (0, 0, 0, 0). */
  lemma {:induction false} UncoveredStaysTransparent(sources: seq<Source>, p: nat)
    requires Composite(sources).Some? && p < TilePixels
    requires forall k :: 0 <= k < |sources| && sources[k].Some? ==> !Covers(sources[k].value, p)
    ensures Composite(sources).value[p] == Transparent
  {
    if sources != [] {
      var n := |sources| - 1;
      var prefix := sources[..n];
      assert forall k :: 0 <= k < n ==> prefix[k] == sources[k];
      UncoveredStaysTransparent(prefix, p);
    }
  }

  /** Once a raster raised, no later raster can make the tile render. */
  lemma {:induction false} CompositeFailureSticks(sources: seq<Source>, i: nat)
    requires i <= |sources| && Composite(sources[..i]).None?
    ensures Composite(sources).None?
    decreases |sources| - i
  {
    if i < |sources| {
      assert sources[..i + 1][..i] == sources[..i];
      CompositeFailureSticks(sources, i + 1);
    } else {
      assert sources[..i] == sources;
    }
  }

  // ---------------------------------------------------------------------
  // process_tile
  // ---------------------------------------------------------------------

  /** One entry of `tile_infos`: (geotiff_paths, zoom_level, tile, tiles_dir). */
  datatype TileTask = TileTask(paths: seq<string>, zoom: int, tile: Tile, tilesDir: string)

  /**
   * What process_tile leaves behind: the tile path, the lock path it holds
   * while working, and the saved image, or None when ValueError was raised
   * before `tile_img.save`.
   */
  datatype TileOutcome = TileOutcome(path: string, lock: string, saved: Option<seq<Pixel>>)

  /** The normalised bands of one reprojected raster. */
  function NormaliseAll(raw: seq<RawBand>): (data: Stack)
    ensures |data| == |raw|
  {
    seq(|raw|, i requires 0 <= i < |raw| => NormaliseBand(raw[i]))
  }

  /**
   * `reproject(path, tile)`: the bands that rasterio's reproject leaves in
   * the float32 destinations for that raster and tile, or None when
   * rasterio.open or a band's reprojection raised.
   */
  type Reprojection = (string, Tile) -> Option<seq<RawBand>>

  /** The normalised bands of one raster, or None when reading it raised. */
  function SourceOf(raw: Option<seq<RawBand>>): (src: Source)
    ensures src.None? <==> raw.None?
    ensures src.Some? ==> |src.value| == |raw.value|
  {
    match raw
    case None => None
    case Some(bands) => Some(NormaliseAll(bands))
  }

  /** One raster of process_tile's loop: its reprojected bands normalised in turn, unless reading it raised. */
  method ReadSource(raw: Option<seq<RawBand>>) returns (src: Source)
    ensures src == SourceOf(raw)
  {
    if raw.None? {
      return None;
    }
    var data := NormaliseBands(raw.value);
    assert data == NormaliseAll(raw.value);
    return Some(data);
  }

  /** The sources of the task's rasters, in the task's order. */
  function TaskSources(task: TileTask, reproject: Reprojection): (srcs: seq<Source>)
    ensures |srcs| == |task.paths|
  {
    seq(|task.paths|, i requires 0 <= i < |task.paths| => SourceOf(reproject(task.paths[i], task.tile)))
  }

  /** `<tiles_dir>/<z>/<x>/<y>.png` for the task's tile. */
  function TaskPath(task: TileTask): string
  {
    TilePath(task.tilesDir, task.tile.z, task.tile.x, task.tile.y)
  }

  /**
   * process_tile: under the lock `<tile path>.lock`, start from a
   * transparent tile, paint every raster of the task in order, then save.
   */
  method ProcessTile(task: TileTask, reproject: Reprojection) returns (out: TileOutcome)
    ensures out.path == TaskPath(task)
    ensures out.lock == LockPath(out.path)
    ensures out.saved == Composite(TaskSources(task, reproject))
  {
    var tileDir := Join(Join(task.tilesDir, Str(task.tile.z)), Str(task.tile.x));
    var tilePath := Join(tileDir, Str(task.tile.y) + ".png");
    var lockPath := tilePath + ".lock";
    ghost var sources := TaskSources(task, reproject);
    var tile := new Pixel[TilePixels](_ => Transparent);
    assert tile[..] == Blank();
    var i := 0;
    while i < |task.paths|
      invariant 0 <= i <= |task.paths|
      invariant Composite(sources[..i]) == Some(tile[..])
    {
      var src := ReadSource(reproject(task.paths[i], task.tile));
      assert src == sources[i];
      assert sources[..i + 1][..i] == sources[..i];
      if src.None? || (|src.value| != 3 && |src.value| != 4) {
        CompositeFailureSticks(sources, i + 1);
        return TileOutcome(tilePath, lockPath, None);
      }
      var data := src.value;
      PaintOver(tile, data);
      i := i + 1;
    }
    assert sources[..i] == sources;
    out := TileOutcome(tilePath, lockPath, Some(tile[..]));
  }

  // ---------------------------------------------------------------------
  // create_slippy_tiles: the task list of one zoom level
  // ---------------------------------------------------------------------

  /** The per-raster tile lists one after the other, in raster order. */
  function Flatten(lists: seq<seq<Tile>>): seq<Tile>
  {
    if lists == [] then [] else Flatten(lists[..|lists| - 1]) + lists[|lists| - 1]
  }

  /** A tile is in the flattened list exactly when some raster's list holds it. */
  lemma {:induction false} FlattenMembership(lists: seq<seq<Tile>>, t: Tile)
    ensures t in Flatten(lists) <==> exists r :: 0 <= r < |lists| && t in lists[r]
  {
    if lists != [] {
      var n := |lists| - 1;
      FlattenMembership(lists[..n], t);
      assert forall r :: 0 <= r < n ==> lists[..n][r] == lists[r];
    }
  }

  /**
   * The tiles of a list without repeats, each at its first occurrence:
   * what the `processed_tiles` check keeps.
   */
  function FirstSeen(s: seq<Tile>): (r: seq<Tile>)
    ensures forall t :: t in r <==> t in s
    ensures forall i, j :: 0 <= i < j < |r| ==> r[i] != r[j]
  {
    if s == [] then []
    else
      var r := FirstSeen(s[..|s| - 1]);
      var last := s[|s| - 1];
      assert s == s[..|s| - 1] + [last];
      if last in r then r else r + [last]
  }

  /** The index of the first occurrence of `t` in `s`. */
  function IndexOf(s: seq<Tile>, t: Tile): (i: nat)
    requires t in s
    ensures i < |s| && s[i] == t
    ensures forall j :: 0 <= j < i ==> s[j] != t
  {
    if s[0] == t then 0 else 1 + IndexOf(s[1..], t)
  }

  /** Any position holding `t` with no `t` before it is IndexOf's answer. */
  lemma IndexOfUnique(s: seq<Tile>, t: Tile, k: nat)
    requires k < |s| && s[k] == t
    requires forall j :: 0 <= j < k ==> s[j] != t
    ensures IndexOf(s, t) == k
  {
  }

  /** FirstSeen lists the tiles in the order of their first occurrence. */
  lemma {:induction false} FirstSeenOrder(s: seq<Tile>)
    ensures forall i, j :: 0 <= i < j < |FirstSeen(s)| ==>
      IndexOf(s, FirstSeen(s)[i]) < IndexOf(s, FirstSeen(s)[j])
  {
    if s != [] {
      var n := |s| - 1;
      var prefix, last := s[..n], s[n];
      FirstSeenOrder(prefix);
      var r' := FirstSeen(prefix);
      assert s == prefix + [last];
      forall x | x in r' ensures IndexOf(s, x) == IndexOf(prefix, x) {
        IndexOfUnique(s, x, IndexOf(prefix, x));
      }
      if last !in r' {
        IndexOfUnique(s, last, n);
      }
    }
  }

  /** The task list for a list of tiles. */
  function Tasks(paths: seq<string>, zoom: int, tiles: seq<Tile>, tilesDir: string): seq<TileTask>
  {
    seq(|tiles|, i requires 0 <= i < |tiles| => TileTask(paths, zoom, tiles[i], tilesDir))
  }

  lemma TasksAppend(paths: seq<string>, zoom: int, tiles: seq<Tile>, t: Tile, tilesDir: string)
    ensures Tasks(paths, zoom, tiles + [t], tilesDir) == Tasks(paths, zoom, tiles, tilesDir) + [TileTask(paths, zoom, t, tilesDir)]
  {
  }

  lemma FirstSeenAppend(s: seq<Tile>, t: Tile)
    ensures FirstSeen(s + [t]) == if t in s then FirstSeen(s) else FirstSeen(s) + [t]
  {
    assert (s + [t])[..|s|] == s;
  }

  /** `tile_infos` of one zoom level, given each raster's intersecting tiles. */
  function TileInfos(paths: seq<string>, zoom: int, rasterTiles: seq<seq<Tile>>, tilesDir: string): seq<TileTask>
  {
    Tasks(paths, zoom, FirstSeen(Flatten(rasterTiles)), tilesDir)
  }

  /**
   * The task list of a zoom level holds every tile some raster intersects,
   * each once, in first-seen order, and every task carries the full raster
   * list, the zoom level and the output root.
   */
  lemma TileInfosProperties(paths: seq<string>, zoom: int, rasterTiles: seq<seq<Tile>>, tilesDir: string)
    ensures var ti := TileInfos(paths, zoom, rasterTiles, tilesDir);
      && (forall i, j :: 0 <= i < j < |ti| ==> ti[i].tile != ti[j].tile)
      && (forall i :: 0 <= i < |ti| ==> exists r :: 0 <= r < |rasterTiles| && ti[i].tile in rasterTiles[r])
      && (forall r, t :: 0 <= r < |rasterTiles| && t in rasterTiles[r] ==>
            exists i :: 0 <= i < |ti| && ti[i].tile == t)
      && (forall i :: 0 <= i < |ti| ==> ti[i] == TileTask(paths, zoom, ti[i].tile, tilesDir))
      && (forall i, j :: 0 <= i < j < |ti| ==>
            IndexOf(Flatten(rasterTiles), ti[i].tile) < IndexOf(Flatten(rasterTiles), ti[j].tile))
  {
    var flat := Flatten(rasterTiles);
    var fs := FirstSeen(flat);
    var ti := TileInfos(paths, zoom, rasterTiles, tilesDir);
    FirstSeenOrder(flat);
    forall i | 0 <= i < |ti| ensures exists r :: 0 <= r < |rasterTiles| && ti[i].tile in rasterTiles[r] {
      FlattenMembership(rasterTiles, ti[i].tile);
      assert fs[i] in fs;
    }
    forall r, t | 0 <= r < |rasterTiles| && t in rasterTiles[r] ensures exists i :: 0 <= i < |ti| && ti[i].tile == t {
      FlattenMembership(rasterTiles, t);
      var i :| 0 <= i < |fs| && fs[i] == t;
      assert ti[i].tile == t;
    }
  }

  /**
   * The inner loop of create_slippy_tiles for one raster: each of its tiles
   * not yet in `processed_tiles` gets a task and is marked processed.
   */
  method AddRasterTiles(paths: seq<string>, zoom: int, tilesDir: string, tiles: seq<Tile>, ghost before: seq<Tile>,
                        tileInfos: seq<TileTask>, processed: set<Tile>)
    returns (tileInfos': seq<TileTask>, processed': set<Tile>)
    requires tileInfos == Tasks(paths, zoom, FirstSeen(before), tilesDir)
    requires forall t :: t in processed <==> t in before
    ensures tileInfos' == Tasks(paths, zoom, FirstSeen(before + tiles), tilesDir)
    ensures forall t :: t in processed' <==> t in before + tiles
  {
    tileInfos', processed' := tileInfos, processed;
    var k := 0;
    assert before + tiles[..k] == before;
    while k < |tiles|
      invariant 0 <= k <= |tiles|
      invariant tileInfos' == Tasks(paths, zoom, FirstSeen(before + tiles[..k]), tilesDir)
      invariant forall t :: t in processed' <==> t in before + tiles[..k]
    {
      var tile := tiles[k];
      ghost var seen := before + tiles[..k];
      ghost var next := seen + [tile];
      assert before + tiles[..k + 1] == next;
      assert forall t :: t in next <==> t in seen || t == tile;
      FirstSeenAppend(seen, tile);
      if tile !in processed' {
        TasksAppend(paths, zoom, FirstSeen(seen), tile, tilesDir);
        tileInfos' := tileInfos' + [TileTask(paths, zoom, tile, tilesDir)];
        processed' := processed' + {tile};
      } else {
        assert FirstSeen(next) == FirstSeen(seen);
      }
      k := k + 1;
    }
    assert tiles[..k] == tiles;
  }

  /** The nested loops of create_slippy_tiles that fill `tile_infos` and `processed_tiles`. */
  method BuildTileInfos(paths: seq<string>, zoom: int, rasterTiles: seq<seq<Tile>>, tilesDir: string)
    returns (tileInfos: seq<TileTask>)
    ensures tileInfos == TileInfos(paths, zoom, rasterTiles, tilesDir)
  {
    tileInfos := [];
    var processed: set<Tile> := {};
    var r := 0;
    while r < |rasterTiles|
      invariant 0 <= r <= |rasterTiles|
      invariant tileInfos == Tasks(paths, zoom, FirstSeen(Flatten(rasterTiles[..r])), tilesDir)
      invariant forall t :: t in processed <==> t in Flatten(rasterTiles[..r])
    {
      ghost var before := Flatten(rasterTiles[..r]);
      tileInfos, processed := AddRasterTiles(paths, zoom, tilesDir, rasterTiles[r], before, tileInfos, processed);
      assert rasterTiles[..r + 1][..r] == rasterTiles[..r];
      assert Flatten(rasterTiles[..r + 1]) == before + rasterTiles[r];
      r := r + 1;
    }
    assert rasterTiles[..r] == rasterTiles;
  }

  // ---------------------------------------------------------------------
  // create_slippy_tiles: the zoom loop and the tiles it writes
  // ---------------------------------------------------------------------

  /**
   * The tile tree as file contents by path, and whether an exception from a
   * task has ended the run.
   */
  datatype RunState = RunState(tree: map<string, seq<Pixel>>, aborted: bool)

  /** The outcome process_tile has for each task, in task order. */
  function Outcomes(tasks: seq<TileTask>, reproject: Reprojection): (outs: seq<TileOutcome>)
    ensures |outs| == |tasks|
  {
    seq(|tasks|, i requires 0 <= i < |tasks| =>
      TileOutcome(TaskPath(tasks[i]), LockPath(TaskPath(tasks[i])), Composite(TaskSources(tasks[i], reproject))))
  }

  /** One task's outcome reaches the driver: its tile was written, or its ValueError aborts the run. */
  function Record(st: RunState, out: TileOutcome): RunState
  {
    match out.saved
    case None => RunState(st.tree, true)
    case Some(img) => RunState(st.tree[out.path := img], false)
  }

  /** The outcomes of one zoom level's tasks, taken one after the other until one is an exception. */
  function RunBatch(st: RunState, outs: seq<TileOutcome>): RunState
    decreases |outs|
  {
    if outs == [] || st.aborted then st
    else RunBatch(Record(st, outs[0]), outs[1..])
  }

  /**
   * `coverage(path, zoom)`: the tiles mercantile.tiles lists for the
   * raster's bounds transformed to EPSG:4326, or None when opening the
   * raster or transforming its bounds raised.
   */
  type TileCover = (string, int) -> Option<seq<Tile>>

  /**
   * Each raster's intersecting tiles at a zoom level, or None when reading
   * any raster raised: create_slippy_tiles does not catch that exception.
   */
  function Coverage(paths: seq<string>, zoom: int, coverage: TileCover): (r: Option<seq<seq<Tile>>>)
    ensures r.None? <==> exists i :: 0 <= i < |paths| && coverage(paths[i], zoom).None?
    ensures r.Some? ==> |r.value| == |paths| && forall i :: 0 <= i < |paths| ==> coverage(paths[i], zoom) == Some(r.value[i])
  {
    if forall i :: 0 <= i < |paths| ==> coverage(paths[i], zoom).Some? then
      Some(seq(|paths|, i requires 0 <= i < |paths| =>
        var c := coverage(paths[i], zoom);
        if c.Some? then c.value else []))
    else None
  }

  /**
   * One zoom level: collecting the tiles raised (the run ends), or the
   * batch of the level's deduplicated tasks.
   */
  function ZoomStep(st: RunState, paths: seq<string>, zoom: int, tilesDir: string,
                    coverage: TileCover, reproject: Reprojection): RunState
  {
    match Coverage(paths, zoom, coverage)
    case None => RunState(st.tree, true)
    case Some(rasterTiles) => RunBatch(st, Outcomes(TileInfos(paths, zoom, rasterTiles, tilesDir), reproject))
  }

  /** Zoom levels `zoom` to `zoomEnd`, one after the other, until something raises. */
  function RunZooms(st: RunState, zoom: int, zoomEnd: int, paths: seq<string>, tilesDir: string,
                    coverage: TileCover, reproject: Reprojection): RunState
    decreases zoomEnd - zoom
  {
    if zoom > zoomEnd || st.aborted then st
    else RunZooms(ZoomStep(st, paths, zoom, tilesDir, coverage, reproject), zoom + 1, zoomEnd,
                  paths, tilesDir, coverage, reproject)
  }

  /**
   * The pool over one zoom level's `tile_infos`, its tasks run one at a
   * time in list order; the first exception a task raises ends the run.
   */
  method RunTileInfos(tree: map<string, seq<Pixel>>, tileInfos: seq<TileTask>, reproject: Reprojection)
    returns (tree': map<string, seq<Pixel>>, aborted: bool)
    ensures RunState(tree', aborted) == RunBatch(RunState(tree, false), Outcomes(tileInfos, reproject))
  {
    ghost var outs := Outcomes(tileInfos, reproject);
    tree', aborted := tree, false;
    var i := 0;
    while i < |tileInfos|
      invariant 0 <= i <= |tileInfos|
      invariant RunBatch(RunState(tree', false), outs[i..]) == RunBatch(RunState(tree, false), outs)
    {
      var out := ProcessTile(tileInfos[i], reproject);
      assert out == outs[i];
      assert outs[i..][1..] == outs[i + 1..];
      if out.saved.None? {
        aborted := true;
        return;
      }
      tree' := tree'[out.path := out.saved.value];
      i := i + 1;
    }
    assert outs[i..] == [];
  }

  /**
   * One pass of the zoom loop: read every raster's tiles, build the zoom
   * level's `tile_infos`, then run them.
   */
  method RunZoom(tree: map<string, seq<Pixel>>, paths: seq<string>, zoom: int, tilesDir: string,
                 coverage: TileCover, reproject: Reprojection)
    returns (tree': map<string, seq<Pixel>>, aborted: bool)
    ensures RunState(tree', aborted) == ZoomStep(RunState(tree, false), paths, zoom, tilesDir, coverage, reproject)
  {
    var rasterTiles := Coverage(paths, zoom, coverage);
    if rasterTiles.None? {
      tree', aborted := tree, true;
    } else {
      var tileInfos := BuildTileInfos(paths, zoom, rasterTiles.value, tilesDir);
      tree', aborted := RunTileInfos(tree, tileInfos, reproject);
    }
  }

  /**
   * create_slippy_tiles, with the pool's tasks run one at a time: the zoom
   * levels from start to end inclusive, in increasing order, each level's
   * tasks built and run before the next level starts.
   */
  method CreateSlippyTiles(paths: seq<string>, zoomStart: int, zoomEnd: int, tilesDir: string,
                           existing: map<string, seq<Pixel>>,
                           coverage: TileCover, reproject: Reprojection)
    returns (tree: map<string, seq<Pixel>>, aborted: bool)
    ensures RunState(tree, aborted) ==
            RunZooms(RunState(existing, false), zoomStart, zoomEnd, paths, tilesDir, coverage, reproject)
  {
    ghost var goal := RunZooms(RunState(existing, false), zoomStart, zoomEnd, paths, tilesDir, coverage, reproject);
    tree, aborted := existing, false;
    var zoom := zoomStart;
    while zoom <= zoomEnd && !aborted
      invariant RunZooms(RunState(tree, aborted), zoom, zoomEnd, paths, tilesDir, coverage, reproject) == goal
      decreases zoomEnd - zoom
    {
      ghost var before := RunState(tree, aborted);
      tree, aborted := RunZoom(tree, paths, zoom, tilesDir, coverage, reproject);
      assert RunZooms(before, zoom, zoomEnd, paths, tilesDir, coverage, reproject)
          == RunZooms(RunState(tree, aborted), zoom + 1, zoomEnd, paths, tilesDir, coverage, reproject);
      zoom := zoom + 1;
    }
    assert RunZooms(RunState(tree, aborted), zoom, zoomEnd, paths, tilesDir, coverage, reproject) == RunState(tree, aborted);
  }

  // ---------------------------------------------------------------------
  // What a batch writes
  // ---------------------------------------------------------------------

  /** No two outcomes are for the same file. */
  predicate DistinctPaths(outs: seq<TileOutcome>) {
    forall i, j :: 0 <= i < j < |outs| ==> outs[i].path != outs[j].path
  }

  /** Every task rendered (no raster that failed to read or had an unsupported band count). */
  predicate AllSaved(outs: seq<TileOutcome>) {
    forall i :: 0 <= i < |outs| ==> outs[i].saved.Some?
  }

  /** The deduplicated task list of a zoom level never writes one file twice. */
  lemma TileInfosDistinctPaths(paths: seq<string>, zoom: int, rasterTiles: seq<seq<Tile>>, tilesDir: string,
                               reproject: Reprojection)
    ensures DistinctPaths(Outcomes(TileInfos(paths, zoom, rasterTiles, tilesDir), reproject))
  {
    var ti := TileInfos(paths, zoom, rasterTiles, tilesDir);
    var outs := Outcomes(ti, reproject);
    TileInfosProperties(paths, zoom, rasterTiles, tilesDir);
    forall i, j | 0 <= i < j < |outs| ensures outs[i].path != outs[j].path {
      if outs[i].path == outs[j].path {
        var a, b := ti[i].tile, ti[j].tile;
        TilePathInjective(tilesDir, a.z, a.x, a.y, b.z, b.x, b.y);
        assert false;
      }
    }
  }

  /** A batch aborts exactly when one of its tasks raised. */
  lemma {:induction false} BatchAbortsIff(tree: map<string, seq<Pixel>>, outs: seq<TileOutcome>)
    ensures RunBatch(RunState(tree, false), outs).aborted <==> !AllSaved(outs)
    decreases |outs|
  {
    if outs != [] {
      var st := Record(RunState(tree, false), outs[0]);
      if !st.aborted {
        BatchAbortsIff(st.tree, outs[1..]);
        assert forall i :: 1 <= i < |outs| ==> outs[i] == outs[1..][i - 1];
      }
    }
  }

  /**
   * When every task rendered and no two share a path, the batch writes each
   * task's image to that task's path and leaves every other file as it was.
   */
  lemma {:induction false} BatchWritesEachTask(tree: map<string, seq<Pixel>>, outs: seq<TileOutcome>)
    requires DistinctPaths(outs) && AllSaved(outs)
    ensures var r := RunBatch(RunState(tree, false), outs);
      && !r.aborted
      && (forall path :: path in r.tree <==> path in tree || exists i :: 0 <= i < |outs| && outs[i].path == path)
      && (forall i :: 0 <= i < |outs| ==> r.tree[outs[i].path] == outs[i].saved.value)
      && (forall path :: path in tree && (forall i :: 0 <= i < |outs| ==> outs[i].path != path) ==>
            r.tree[path] == tree[path])
    decreases |outs|
  {
    if outs != [] {
      var st := Record(RunState(tree, false), outs[0]);
      var rest := outs[1..];
      assert forall i :: 0 <= i < |rest| ==> rest[i] == outs[i + 1];
      BatchWritesEachTask(st.tree, rest);
      var r := RunBatch(RunState(tree, false), outs);
      assert r == RunBatch(st, rest);
      forall path ensures path in r.tree <==> path in tree || exists i :: 0 <= i < |outs| && outs[i].path == path {
        if exists i :: 0 <= i < |rest| && rest[i].path == path {
          var i :| 0 <= i < |rest| && rest[i].path == path;
          assert outs[i + 1].path == path;
        }
        if exists i :: 0 <= i < |outs| && outs[i].path == path {
          var i :| 0 <= i < |outs| && outs[i].path == path;
          if i > 0 { assert rest[i - 1].path == path; }
        }
      }
      forall i | 0 <= i < |outs| ensures r.tree[outs[i].path] == outs[i].saved.value {
        if i > 0 { assert rest[i - 1] == outs[i]; }
      }
    }
  }

  /**
   * The pool runs a zoom level's tasks in no fixed order. As long as every
   * task renders, any order of the same distinct-path outcomes leaves the
   * same tile tree.
   */
  lemma BatchOrderIrrelevant(tree: map<string, seq<Pixel>>, outs: seq<TileOutcome>, other: seq<TileOutcome>)
    requires DistinctPaths(outs) && DistinctPaths(other) && AllSaved(outs)
    requires forall o :: o in outs <==> o in other
    ensures RunBatch(RunState(tree, false), outs) == RunBatch(RunState(tree, false), other)
  {
    assert AllSaved(other) by {
      forall i | 0 <= i < |other| ensures other[i].saved.Some? {
        assert other[i] in outs;
      }
    }
    BatchWritesEachTask(tree, outs);
    BatchWritesEachTask(tree, other);
    var r1 := RunBatch(RunState(tree, false), outs);
    var r2 := RunBatch(RunState(tree, false), other);
    forall path ensures path in r1.tree <==> path in r2.tree {
      if exists i :: 0 <= i < |outs| && outs[i].path == path {
        var i :| 0 <= i < |outs| && outs[i].path == path;
        assert outs[i] in other;
      }
      if exists i :: 0 <= i < |other| && other[i].path == path {
        var i :| 0 <= i < |other| && other[i].path == path;
        assert other[i] in outs;
      }
    }
    forall path | path in r1.tree ensures r1.tree[path] == r2.tree[path] {
      if exists j :: 0 <= j < |other| && other[j].path == path {
        var j :| 0 <= j < |other| && other[j].path == path;
        assert other[j] in outs;
      } else {
        forall i | 0 <= i < |outs| ensures outs[i].path != path {
          assert outs[i] in other;
        }
      }
    }
    assert r1.tree == r2.tree;
  }

  /**
   * A task whose rasters are all supported but cover no pixel still saves
   * its tile, fully transparent: process_tile has no emptiness check.
   */
  lemma TransparentTileStillSaved(task: TileTask, reproject: Reprojection)
    requires forall k :: 0 <= k < |task.paths| ==> Renders(TaskSources(task, reproject)[k])
    requires forall k, p :: 0 <= k < |task.paths| && 0 <= p < TilePixels && TaskSources(task, reproject)[k].Some? ==>
               !Covers(TaskSources(task, reproject)[k].value, p)
    ensures Composite(TaskSources(task, reproject)) == Some(Blank())
  {
    var srcs := TaskSources(task, reproject);
    CompositeFailsIff(srcs);
    assert forall k :: 0 <= k < |srcs| ==> Renders(srcs[k]);
    var img := Composite(srcs).value;
    forall p | 0 <= p < TilePixels ensures img[p] == Blank()[p] {
      assert forall k :: 0 <= k < |srcs| && srcs[k].Some? ==> !Covers(srcs[k].value, p);
      UncoveredStaysTransparent(srcs, p);
    }
    assert img == Blank();
  }
  // ---------------------------------------------------------------------
  // Across zoom levels
  // ---------------------------------------------------------------------

  /** A zoom level raises: reading some raster's tiles fails, or one of its tasks raises. */
  predicate LevelFails(paths: seq<string>, zoom: int, tilesDir: string, coverage: TileCover, reproject: Reprojection) {
    match Coverage(paths, zoom, coverage)
    case None => true
    case Some(rasterTiles) => !AllSaved(Outcomes(TileInfos(paths, zoom, rasterTiles, tilesDir), reproject))
  }

  /** One zoom level ends the run exactly when it raises. */
  lemma ZoomStepAbortsIff(tree: map<string, seq<Pixel>>, paths: seq<string>, zoom: int, tilesDir: string,
                          coverage: TileCover, reproject: Reprojection)
    ensures ZoomStep(RunState(tree, false), paths, zoom, tilesDir, coverage, reproject).aborted <==>
            LevelFails(paths, zoom, tilesDir, coverage, reproject)
  {
    var rt := Coverage(paths, zoom, coverage);
    if rt.Some? {
      BatchAbortsIff(tree, Outcomes(TileInfos(paths, zoom, rt.value, tilesDir), reproject));
    }
  }

  /**
   * The run over zoom levels `zoom` to `zoomEnd` ends early exactly when one
   * of those levels raises; otherwise every level is run to completion.
   */
  lemma {:induction false} RunZoomsAbortsIff(tree: map<string, seq<Pixel>>, zoom: int, zoomEnd: int, paths: seq<string>,
                                             tilesDir: string, coverage: TileCover, reproject: Reprojection)
    ensures RunZooms(RunState(tree, false), zoom, zoomEnd, paths, tilesDir, coverage, reproject).aborted <==>
            exists z :: zoom <= z <= zoomEnd && LevelFails(paths, z, tilesDir, coverage, reproject)
    decreases zoomEnd - zoom
  {
    if zoom <= zoomEnd {
      var st := ZoomStep(RunState(tree, false), paths, zoom, tilesDir, coverage, reproject);
      var r := RunZooms(RunState(tree, false), zoom, zoomEnd, paths, tilesDir, coverage, reproject);
      assert r == RunZooms(st, zoom + 1, zoomEnd, paths, tilesDir, coverage, reproject);
      ZoomStepAbortsIff(tree, paths, zoom, tilesDir, coverage, reproject);
      if st.aborted {
        assert r == st;
        assert LevelFails(paths, zoom, tilesDir, coverage, reproject);
      } else {
        RunZoomsAbortsIff(st.tree, zoom + 1, zoomEnd, paths, tilesDir, coverage, reproject);
        if z :| zoom <= z <= zoomEnd && LevelFails(paths, z, tilesDir, coverage, reproject) {
          assert z != zoom;
        }
      }
    }
  }

  /** A batch only adds or overwrites tiles; it never removes a file. */
  lemma {:induction false} BatchKeepsFiles(st: RunState, outs: seq<TileOutcome>)
    ensures st.tree.Keys <= RunBatch(st, outs).tree.Keys
    decreases |outs|
  {
    if outs != [] && !st.aborted {
      BatchKeepsFiles(Record(st, outs[0]), outs[1..]);
    }
  }

  /** No zoom level removes a file of the tree, whether or not the run ends early. */
  lemma {:induction false} RunZoomsKeepsFiles(st: RunState, zoom: int, zoomEnd: int, paths: seq<string>,
                                              tilesDir: string, coverage: TileCover, reproject: Reprojection)
    ensures st.tree.Keys <= RunZooms(st, zoom, zoomEnd, paths, tilesDir, coverage, reproject).tree.Keys
    decreases zoomEnd - zoom
  {
    if zoom <= zoomEnd && !st.aborted {
      var next := ZoomStep(st, paths, zoom, tilesDir, coverage, reproject);
      var rt := Coverage(paths, zoom, coverage);
      if rt.Some? {
        BatchKeepsFiles(st, Outcomes(TileInfos(paths, zoom, rt.value, tilesDir), reproject));
      }
      RunZoomsKeepsFiles(next, zoom + 1, zoomEnd, paths, tilesDir, coverage, reproject);
    }
  }
}

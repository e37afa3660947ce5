/**
 * The max-merge tiler. For every zoom level and every tile of the world
 * grid, each `.tif` in the input folder whose bounds strictly overlap the
 * tile is reprojected into a zeroed uint8 band stack and merged into the
 * tile by element-wise maximum. A tile that received at least one stack is
 * written as `<output>/<z>/<x>/<y>.png`; a raster whose processing raises
 * is logged and skipped.
 */
module MaxMergeTiles {
  import opened Common
  import opened PyStrings
  import opened TilePaths

  // ---------------------------------------------------------------------
  // Bounds
  // ---------------------------------------------------------------------

  /** A bounding box (west, south, east, north). */
  datatype Bounds = Bounds(west: real, south: real, east: real, north: real)

  /** A box of positive width and height. */
  predicate WellFormed(b: Bounds) {
    b.west < b.east && b.south < b.north
  }

  /** (x, y) lies strictly inside the box. */
  predicate Inside(b: Bounds, x: real, y: real) {
    b.west < x < b.east && b.south < y < b.north
  }

  /** The tile/raster test: strict inequality on all four sides. */
  predicate Overlaps(tile: Bounds, src: Bounds) {
    tile.west < src.east && tile.east > src.west && tile.south < src.north && tile.north > src.south
  }

  /**
   * For boxes of positive area the test holds exactly when the two boxes
   * share an interior point; boxes that only share an edge or a corner do
   * not count.
   */
  lemma OverlapsIffCommonInterior(tile: Bounds, src: Bounds)
    requires WellFormed(tile) && WellFormed(src)
    ensures Overlaps(tile, src) <==> exists x, y :: Inside(tile, x, y) && Inside(src, x, y)
  {
    if Overlaps(tile, src) {
      var w := if tile.west < src.west then src.west else tile.west;
      var e := if tile.east < src.east then tile.east else src.east;
      var s := if tile.south < src.south then src.south else tile.south;
      var n := if tile.north < src.north then tile.north else src.north;
      var x, y := (w + e) / 2.0, (s + n) / 2.0;
      assert Inside(tile, x, y) && Inside(src, x, y);
    }
  }

  // ---------------------------------------------------------------------
  // Band stacks and element-wise maximum
  // ---------------------------------------------------------------------

  /**
   * A uint8 band stack, numpy's (tile_bands, tile_size, tile_size) array
   * with each band flattened row by row.
   */
  type Stack = seq<seq<Byte>>

  /** `bands` bands of `pixels` samples each. */
  predicate Shaped(s: Stack, bands: nat, pixels: nat) {
    |s| == bands && forall i :: 0 <= i < bands ==> |s[i]| == pixels
  }

  predicate SameShape(a: Stack, b: Stack) {
    |a| == |b| && forall i :: 0 <= i < |a| ==> |a[i]| == |b[i]|
  }

  /** Same shape, and `a` is at most `b` sample by sample. */
  predicate Below(a: Stack, b: Stack) {
    SameShape(a, b) && forall i, k :: 0 <= i < |a| && 0 <= k < |a[i]| ==> a[i][k] <= b[i][k]
  }

  function ZeroBand(pixels: nat): seq<Byte> {
    seq(pixels, _ => 0)
  }

  /** np.zeros((bands, size, size), dtype=np.uint8). */
  function Zeros(bands: nat, pixels: nat): (z: Stack)
    ensures Shaped(z, bands, pixels)
  {
    seq(bands, _ => ZeroBand(pixels))
  }

  function Max(a: Byte, b: Byte): Byte {
    if a < b then b else a
  }

  /**
   * np.maximum on two stacks of one shape: the least stack above both,
   * every sample taken from one of the two.
   */
  function MaxMerge(a: Stack, b: Stack): (r: Stack)
    requires SameShape(a, b)
    ensures Below(a, r) && Below(b, r)
    ensures forall i, k :: 0 <= i < |r| && 0 <= k < |r[i]| ==> r[i][k] == a[i][k] || r[i][k] == b[i][k]
  {
    seq(|a|, i requires 0 <= i < |a| => seq(|a[i]|, k requires 0 <= k < |a[i]| => Max(a[i][k], b[i][k])))
  }

  /** Two stacks of one shape that agree sample by sample are equal. */
  lemma StackExtensionality(a: Stack, b: Stack)
    requires SameShape(a, b)
    requires forall i, k :: 0 <= i < |a| && 0 <= k < |a[i]| ==> a[i][k] == b[i][k]
    ensures a == b
  {
    forall i | 0 <= i < |a| ensures a[i] == b[i] {
      assert forall k :: 0 <= k < |a[i]| ==> a[i][k] == b[i][k];
    }
  }

  lemma MaxMergeCommutes(a: Stack, b: Stack)
    requires SameShape(a, b)
    ensures MaxMerge(a, b) == MaxMerge(b, a)
  {
    StackExtensionality(MaxMerge(a, b), MaxMerge(b, a));
  }

  lemma MaxMergeAssociates(a: Stack, b: Stack, c: Stack)
    requires SameShape(a, b) && SameShape(b, c)
    ensures MaxMerge(MaxMerge(a, b), c) == MaxMerge(a, MaxMerge(b, c))
  {
    StackExtensionality(MaxMerge(MaxMerge(a, b), c), MaxMerge(a, MaxMerge(b, c)));
  }

  /** Merging data that is already below the tile changes nothing; in particular merging a stack twice. */
  lemma MaxMergeAbsorbs(a: Stack, b: Stack)
    requires Below(b, a)
    ensures MaxMerge(a, b) == a
  {
    StackExtensionality(MaxMerge(a, b), a);
  }

  lemma MaxMergeTwice(acc: Stack, d: Stack)
    requires SameShape(acc, d)
    ensures MaxMerge(MaxMerge(acc, d), d) == MaxMerge(acc, d)
  {
    MaxMergeAbsorbs(MaxMerge(acc, d), d);
  }

  /** Raising either argument never lowers the merge. */
  lemma MaxMergeMonotone(a: Stack, b: Stack, a': Stack, b': Stack)
    requires Below(a, a') && Below(b, b') && SameShape(a, b)
    ensures Below(MaxMerge(a, b), MaxMerge(a', b'))
  {
  }

  /** The tile after merging each stack in turn into `base`. */
  function MergeAll(base: Stack, stacks: seq<Stack>): (r: Stack)
    requires forall j :: 0 <= j < |stacks| ==> SameShape(base, stacks[j])
    ensures SameShape(base, r)
  {
    if stacks == [] then base
    else
      var pre, last := stacks[..|stacks| - 1], stacks[|stacks| - 1];
      assert forall j :: 0 <= j < |pre| ==> pre[j] == stacks[j];
      var m := MergeAll(base, pre);
      assert SameShape(base, last);
      assert SameShape(m, last);
      MaxMerge(m, last)
  }

  /**
   * The merged tile is above the base and above every merged stack, and
   * each of its samples is the base's or some stack's: it is the
   * sample-wise maximum.
   */
  lemma {:induction false} MergeAllIsPointwiseMax(base: Stack, stacks: seq<Stack>)
    requires forall j :: 0 <= j < |stacks| ==> SameShape(base, stacks[j])
    ensures Below(base, MergeAll(base, stacks))
    ensures forall j :: 0 <= j < |stacks| ==> Below(stacks[j], MergeAll(base, stacks))
    ensures var r := MergeAll(base, stacks);
            forall i, k :: 0 <= i < |r| && 0 <= k < |r[i]| ==>
              r[i][k] == base[i][k] || exists j :: 0 <= j < |stacks| && r[i][k] == stacks[j][i][k]
  {
    if stacks != [] {
      var pre, last := stacks[..|stacks| - 1], stacks[|stacks| - 1];
      MergeAllIsPointwiseMax(base, pre);
      var m := MergeAll(base, pre);
      var r := MergeAll(base, stacks);
      assert r == MaxMerge(m, last);
      forall j | 0 <= j < |stacks| ensures Below(stacks[j], r) {
        if j < |stacks| - 1 {
          assert stacks[j] == pre[j];
        }
      }
      forall i, k | 0 <= i < |r| && 0 <= k < |r[i]|
        ensures r[i][k] == base[i][k] || exists j :: 0 <= j < |stacks| && r[i][k] == stacks[j][i][k]
      {
        if r[i][k] == last[i][k] {
          assert r[i][k] == stacks[|stacks| - 1][i][k];
        } else if r[i][k] != base[i][k] {
          var j :| 0 <= j < |pre| && m[i][k] == pre[j][i][k];
          assert r[i][k] == stacks[j][i][k];
        }
      }
    }
  }

  /** The merge depends only on which stacks take part: not on their order, nor on repeats. */
  lemma MergeAllOrderIrrelevant(base: Stack, stacks: seq<Stack>, others: seq<Stack>)
    requires forall j :: 0 <= j < |stacks| ==> SameShape(base, stacks[j])
    requires forall j :: 0 <= j < |others| ==> SameShape(base, others[j])
    requires forall s :: s in stacks <==> s in others
    ensures MergeAll(base, stacks) == MergeAll(base, others)
  {
    MergeAllIsPointwiseMax(base, stacks);
    MergeAllIsPointwiseMax(base, others);
    var r, r' := MergeAll(base, stacks), MergeAll(base, others);
    forall i, k | 0 <= i < |r| && 0 <= k < |r[i]| ensures r[i][k] == r'[i][k] {
      if r[i][k] != base[i][k] {
        var j :| 0 <= j < |stacks| && r[i][k] == stacks[j][i][k];
        assert stacks[j] in others;
        var j' :| 0 <= j' < |others| && others[j'] == stacks[j];
        assert Below(others[j'], r');
      }
      if r'[i][k] != base[i][k] {
        var j :| 0 <= j < |others| && r'[i][k] == others[j][i][k];
        assert others[j] in stacks;
        var j' :| 0 <= j' < |stacks| && stacks[j'] == others[j];
        assert Below(stacks[j'], r);
      }
    }
    StackExtensionality(r, r');
  }

  /** Merging all-zero stacks into a zero tile leaves it all zero. */
  lemma {:induction false} MergeOfZerosIsZero(bands: nat, pixels: nat, stacks: seq<Stack>)
    requires forall j :: 0 <= j < |stacks| ==> stacks[j] == Zeros(bands, pixels)
    ensures MergeAll(Zeros(bands, pixels), stacks) == Zeros(bands, pixels)
  {
    if stacks != [] {
      var z := Zeros(bands, pixels);
      MergeOfZerosIsZero(bands, pixels, stacks[..|stacks| - 1]);
      MaxMergeAbsorbs(z, z);
    }
  }

  // ---------------------------------------------------------------------
  // reproject_geotiff_to_tile
  // ---------------------------------------------------------------------

  /** What rasterio.open reports of a raster: its band count and its array bounds. */
  datatype Raster = Raster(count: nat, bounds: Bounds)

  /**
   * The tiler's inputs: the input folder's path, the output folder,
   * the band count and edge length of a tile, and the library calls it
   * depends on: rasterio.open (None where it raises), the reprojection of
   * band i of a raster into a tile (None where it raises), mercantile's
   * world grid at a zoom level and the bounds of a tile.
   */
  datatype Inputs = Inputs(inputFolder: string, outputFolder: string,
                           tileBands: nat, tileSize: nat,
                           open: string -> Option<Raster>,
                           warp: (string, Tile, nat) -> Option<seq<Byte>>,
                           grid: int -> seq<Tile>,
                           bounds: Tile -> Bounds)

  function Pixels(env: Inputs): nat {
    env.tileSize * env.tileSize
  }

  /** A reprojection writes a whole tile_size × tile_size destination band. */
  ghost predicate WarpShaped(env: Inputs) {
    forall path, tile, i :: env.warp(path, tile, i).Some? ==> |env.warp(path, tile, i).value| == Pixels(env)
  }

  function Min(a: nat, b: nat): nat {
    if a < b then a else b
  }

  /** Bands 1 to n reprojected in turn; the first call that raises ends it. */
  function WarpBands(env: Inputs, path: string, tile: Tile, n: nat): (r: Option<seq<seq<Byte>>>)
    ensures r.Some? ==> |r.value| == n &&
                        forall i :: 0 <= i < n ==> env.warp(path, tile, i + 1) == Some(r.value[i])
  {
    if n == 0 then Some([])
    else match WarpBands(env, path, tile, n - 1)
      case None => None
      case Some(bands) =>
        match env.warp(path, tile, n)
        case None => None
        case Some(b) => Some(bands + [b])
  }

  /** Once a band's call has raised, so has every longer run. */
  lemma {:induction false} WarpBandsFailureSticks(env: Inputs, path: string, tile: Tile, i: nat, n: nat)
    requires i <= n && WarpBands(env, path, tile, i).None?
    ensures WarpBands(env, path, tile, n).None?
    decreases n
  {
    if i < n {
      WarpBandsFailureSticks(env, path, tile, i, n - 1);
    }
  }

  /** The run over bands 1 to n raises exactly when one of those bands' calls does. */
  lemma {:induction false} WarpBandsFailsIff(env: Inputs, path: string, tile: Tile, n: nat)
    ensures WarpBands(env, path, tile, n).None? <==> exists i :: 1 <= i <= n && env.warp(path, tile, i).None?
  {
    if n > 0 {
      WarpBandsFailsIff(env, path, tile, n - 1);
      if env.warp(path, tile, n).None? {
        assert WarpBands(env, path, tile, n).None?;
      }
    }
  }

  /**
   * reproject_geotiff_to_tile as a value: the first min(count, tile_bands)
   * bands reprojected, the rest left zero; None if a reprojection raises.
   */
  function Reprojected(env: Inputs, path: string, tile: Tile, count: nat): (r: Option<Stack>)
    ensures WarpShaped(env) && r.Some? ==> Shaped(r.value, env.tileBands, Pixels(env))
  {
    var m := Min(count, env.tileBands);
    match WarpBands(env, path, tile, m)
    case None => None
    case Some(bands) => Some(bands + Zeros(env.tileBands - m, Pixels(env)))
  }

  /**
   * A reprojected stack has the tile's shape; band i + 1 of the raster fills
   * band i for i below min(count, tile_bands), and every later band is zero.
   * It fails exactly when one of the first min(count, tile_bands) band
   * reprojections raises.
   */
  lemma ReprojectedFillsLeadingBands(env: Inputs, path: string, tile: Tile, count: nat)
    requires WarpShaped(env)
    ensures var m := Min(count, env.tileBands);
            Reprojected(env, path, tile, count).None? <==> exists i :: 1 <= i <= m && env.warp(path, tile, i).None?
    ensures var m := Min(count, env.tileBands);
            var r := Reprojected(env, path, tile, count);
            r.Some? ==>
              Shaped(r.value, env.tileBands, Pixels(env)) &&
              (forall i :: 0 <= i < m ==> env.warp(path, tile, i + 1) == Some(r.value[i])) &&
              (forall i :: m <= i < env.tileBands ==> r.value[i] == ZeroBand(Pixels(env)))
  {
    WarpBandsFailsIff(env, path, tile, Min(count, env.tileBands));
  }

  /**
   * reproject_geotiff_to_tile: a zeroed destination of tile_bands bands,
   * then bands 1 to min(count, tile_bands) of the raster written into
   * dest[i - 1] one at a time.
   */
  method ReprojectToTile(env: Inputs, path: string, tile: Tile, count: nat) returns (dest: Option<Stack>)
    ensures dest == Reprojected(env, path, tile, count)
  {
    var m := Min(count, env.tileBands);
    var d := new seq<Byte>[env.tileBands](_ => ZeroBand(Pixels(env)));
    var i := 1;
    while i <= m
      invariant 1 <= i <= m + 1
      invariant WarpBands(env, path, tile, i - 1) == Some(d[..i - 1])
      invariant forall k :: i - 1 <= k < env.tileBands ==> d[k] == ZeroBand(Pixels(env))
    {
      var band := env.warp(path, tile, i);
      if band.None? {
        WarpBandsFailureSticks(env, path, tile, i, m);
        return None;
      }
      d[i - 1] := band.value;
      assert d[..i] == d[..i - 1] + [band.value];
      i := i + 1;
    }
    assert d[..] == d[..m] + Zeros(env.tileBands - m, Pixels(env));
    return Some(d[..]);
  }

  // ---------------------------------------------------------------------
  // One tile: the loop over the input folder
  // ---------------------------------------------------------------------

  /**
   * One listed name's part in a tile (the body of the try block): a `.tif`
   * that opens, strictly overlaps the tile and reprojects contributes its
   * stack. Every other name contributes nothing, whether it was skipped or
   * raised.
   */
  function Contribution(env: Inputs, name: string, tile: Tile): Option<Stack>
  {
    if !EndsWith(name, ".tif") then None
    else
      var path := Join(env.inputFolder, name);
      match env.open(path)
      case None => None
      case Some(src) => if Overlaps(env.bounds(tile), src.bounds) then Reprojected(env, path, tile, src.count) else None
  }

  /** The stacks merged into a tile, in listing order. */
  function Contributions(env: Inputs, names: seq<string>, tile: Tile): (r: seq<Stack>)
    ensures WarpShaped(env) ==> forall j :: 0 <= j < |r| ==> Shaped(r[j], env.tileBands, Pixels(env))
  {
    if names == [] then []
    else
      var rest := Contributions(env, names[..|names| - 1], tile);
      var last := names[|names| - 1];
      match Contribution(env, last, tile)
      case None => rest
      case Some(s) => rest + [s]
  }

  /** The merged tile data: every contribution max-merged into zeros. */
  function TileData(env: Inputs, listing: seq<string>, tile: Tile): (r: Stack)
    requires WarpShaped(env)
    ensures Shaped(r, env.tileBands, Pixels(env))
  {
    MergeAll(Zeros(env.tileBands, Pixels(env)), Contributions(env, listing, tile))
  }

  /** Whether `tile_filled` ends up set. */
  predicate Filled(env: Inputs, listing: seq<string>, tile: Tile) {
    Contributions(env, listing, tile) != []
  }

  /**
   * The try block for one listed name: open a `.tif`, test it against the
   * tile and reproject it. An exception, or a name that is skipped, yields
   * nothing.
   */
  method TryRaster(env: Inputs, name: string, tile: Tile) returns (c: Option<Stack>)
    ensures c == Contribution(env, name, tile)
  {
    c := None;
    if EndsWith(name, ".tif") {
      var path := Join(env.inputFolder, name);
      var src := env.open(path);
      if src.Some? && Overlaps(env.bounds(tile), src.value.bounds) {
        c := ReprojectToTile(env, path, tile, src.value.count);
      }
    }
  }

  /**
   * The inner loop of create_tiles for one tile: a zeroed tile, then every
   * listed name tried in turn, merging what contributes and setting the
   * flag once something has.
   */
  method MergeTile(env: Inputs, listing: seq<string>, tile: Tile) returns (data: Stack, filled: bool)
    requires WarpShaped(env)
    ensures data == TileData(env, listing, tile)
    ensures filled == Filled(env, listing, tile)
  {
    var zeros := Zeros(env.tileBands, Pixels(env));
    data, filled := zeros, false;
    for j := 0 to |listing|
      invariant data == MergeAll(zeros, Contributions(env, listing[..j], tile))
      invariant filled <==> Contributions(env, listing[..j], tile) != []
    {
      ghost var before := Contributions(env, listing[..j], tile);
      var c := TryRaster(env, listing[j], tile);
      assert listing[..j + 1][..j] == listing[..j];
      assert Contributions(env, listing[..j + 1], tile) == if c.Some? then before + [c.value] else before;
      if c.Some? {
        data := MaxMerge(data, c.value);
        filled := true;
      }
    }
    assert listing[..|listing|] == listing;
  }

  /** A stack is merged into a tile exactly when some listed name contributes it. */
  lemma {:induction false} ContributionsMembers(env: Inputs, names: seq<string>, tile: Tile)
    ensures forall s :: s in Contributions(env, names, tile) <==>
                        exists j :: 0 <= j < |names| && Contribution(env, names[j], tile) == Some(s)
  {
    if names != [] {
      var pre := names[..|names| - 1];
      ContributionsMembers(env, pre, tile);
      forall s | s in Contributions(env, names, tile)
        ensures exists j :: 0 <= j < |names| && Contribution(env, names[j], tile) == Some(s)
      {
        if s in Contributions(env, pre, tile) {
          var j :| 0 <= j < |pre| && Contribution(env, pre[j], tile) == Some(s);
          assert names[j] == pre[j];
        } else {
          assert Contribution(env, names[|names| - 1], tile) == Some(s);
        }
      }
      forall s, j | 0 <= j < |names| && Contribution(env, names[j], tile) == Some(s)
        ensures s in Contributions(env, names, tile)
      {
        if j < |names| - 1 {
          assert pre[j] == names[j];
        }
      }
    }
  }

  /** The tile is filled exactly when some listed name contributes to it. */
  lemma FilledIffSomeContributor(env: Inputs, listing: seq<string>, tile: Tile)
    ensures Filled(env, listing, tile) <==>
            exists j :: 0 <= j < |listing| && Contribution(env, listing[j], tile).Some?
  {
    var cs := Contributions(env, listing, tile);
    ContributionsMembers(env, listing, tile);
    if cs != [] {
      assert cs[0] in cs;
    }
    if j :| 0 <= j < |listing| && Contribution(env, listing[j], tile).Some? {
      assert Contribution(env, listing[j], tile).value in cs;
    }
  }

  /**
   * A name that raises (or is skipped) anywhere in the listing leaves the
   * tile's data and flag exactly as if it were not listed: the other
   * rasters still contribute.
   */
  lemma {:induction false} FailingNameIgnored(env: Inputs, before: seq<string>, name: string, after: seq<string>, tile: Tile)
    requires Contribution(env, name, tile).None?
    ensures Contributions(env, before + [name] + after, tile) == Contributions(env, before + after, tile)
    decreases |after|
  {
    if after == [] {
      assert (before + [name])[..|before|] == before;
      assert before + [name] + after == before + [name];
      assert before + after == before;
    } else {
      var pre := after[..|after| - 1];
      FailingNameIgnored(env, before, name, pre, tile);
      assert (before + [name] + after)[..|before| + 1 + |pre|] == before + [name] + pre;
      assert (before + after)[..|before| + |pre|] == before + pre;
    }
  }

  /** The tile does not depend on the order in which the folder lists its files. */
  lemma ListingOrderIrrelevant(env: Inputs, listing: seq<string>, listing': seq<string>, tile: Tile)
    requires WarpShaped(env) && multiset(listing) == multiset(listing')
    ensures TileData(env, listing, tile) == TileData(env, listing', tile)
    ensures Filled(env, listing, tile) == Filled(env, listing', tile)
  {
    ContributionsMembers(env, listing, tile);
    ContributionsMembers(env, listing', tile);
    var cs, cs' := Contributions(env, listing, tile), Contributions(env, listing', tile);
    forall s ensures s in cs <==> s in cs' {
      if s in cs {
        var j :| 0 <= j < |listing| && Contribution(env, listing[j], tile) == Some(s);
        assert listing[j] in multiset(listing');
        var j' :| 0 <= j' < |listing'| && listing'[j'] == listing[j];
      }
      if s in cs' {
        var j :| 0 <= j < |listing'| && Contribution(env, listing'[j], tile) == Some(s);
        assert listing'[j] in multiset(listing);
        var j' :| 0 <= j' < |listing| && listing[j'] == listing'[j];
      }
    }
    MergeAllOrderIrrelevant(Zeros(env.tileBands, Pixels(env)), cs, cs');
    if cs != [] {
      assert cs[0] in cs';
    }
    if cs' != [] {
      assert cs'[0] in cs;
    }
  }

  /**
   * No emptiness check: when every contributing raster reprojects to zeros,
   * the tile is filled and saved all the same, with all-zero data.
   */
  lemma FilledTileMayBeZero(env: Inputs, listing: seq<string>, tile: Tile)
    requires WarpShaped(env)
    requires forall j :: 0 <= j < |listing| && Contribution(env, listing[j], tile).Some? ==>
                         Contribution(env, listing[j], tile).value == Zeros(env.tileBands, Pixels(env))
    ensures TileData(env, listing, tile) == Zeros(env.tileBands, Pixels(env))
  {
    var cs := Contributions(env, listing, tile);
    ContributionsMembers(env, listing, tile);
    forall j | 0 <= j < |cs| ensures cs[j] == Zeros(env.tileBands, Pixels(env)) {
      assert cs[j] in cs;
    }
    MergeOfZerosIsZero(env.tileBands, Pixels(env), cs);
  }

  // ---------------------------------------------------------------------
  // save_tile and create_tiles
  // ---------------------------------------------------------------------

  /** The output tree: PNG path to the pixel array it holds. */
  type Files = map<string, seq<seq<Byte>>>

  /**
   * np.transpose(tile_data, (1, 2, 0)): the band-major stack as the
   * pixel-major array PIL encodes, one sample per band at each pixel.
   */
  function Interleave(s: Stack, pixels: nat): (img: seq<seq<Byte>>)
    requires forall i :: 0 <= i < |s| ==> |s[i]| == pixels
    ensures |img| == pixels && forall p :: 0 <= p < pixels ==> |img[p]| == |s|
  {
    seq(pixels, p requires 0 <= p < pixels => seq(|s|, i requires 0 <= i < |s| => s[i][p]))
  }

  /** Reading the bands back out of a pixel-major array. */
  function Deinterleave(img: seq<seq<Byte>>, bands: nat): Stack
    requires forall p :: 0 <= p < |img| ==> |img[p]| == bands
  {
    seq(bands, i requires 0 <= i < bands => seq(|img|, p requires 0 <= p < |img| => img[p][i]))
  }

  /** The saved image holds the tile data unchanged: its bands can be read back exactly. */
  lemma InterleaveRoundTrip(s: Stack, bands: nat, pixels: nat)
    requires Shaped(s, bands, pixels)
    ensures Deinterleave(Interleave(s, pixels), bands) == s
  {
    var back := Deinterleave(Interleave(s, pixels), bands);
    StackExtensionality(back, s);
  }

  /**
   * The band counts PIL's Image.fromarray accepts for a uint8
   * (height, width, bands) array: 2 (LA), 3 (RGB) and 4 (RGBA). Any other
   * count raises TypeError.
   */
  predicate Encodable(bands: nat) {
    2 <= bands <= 4
  }

  /**
   * save_tile: the data is uint8 throughout, so the normalisation branch
   * does not run; the pixel-major array goes to
   * `<output>/<zoom>/<x>/<y>.png`. Image.fromarray raises (and nothing is
   * written) when the stack's band count is not one PIL encodes.
   */
  method SaveTile(files: Files, data: Stack, pixels: nat, outputFolder: string, zoom: int, x: int, y: int)
    returns (files': Files, raised: bool)
    requires forall i :: 0 <= i < |data| ==> |data[i]| == pixels
    ensures raised <==> !Encodable(|data|)
    ensures files' == if raised then files else files[TilePath(outputFolder, zoom, x, y) := Interleave(data, pixels)]
  {
    var image := Interleave(data, pixels);
    if !Encodable(|data|) {
      return files, true;
    }
    var tilePath := TilePath(outputFolder, zoom, x, y);
    files', raised := files[tilePath := image], false;
  }

  /** The output tree so far, and whether an exception has ended create_tiles. */
  datatype RunState = RunState(files: Files, aborted: bool)

  /**
   * One tile of create_tiles: saved at its path if filled, otherwise nothing
   * written. save_tile runs outside the try block, so its exception ends the
   * run; once ended, nothing more happens.
   */
  function TileStep(st: RunState, env: Inputs, listing: seq<string>, zoom: int, tile: Tile): RunState
    requires WarpShaped(env)
  {
    if st.aborted || !Filled(env, listing, tile) then st
    else if !Encodable(env.tileBands) then RunState(st.files, true)
    else RunState(st.files[TilePath(env.outputFolder, zoom, tile.x, tile.y) := Interleave(TileData(env, listing, tile), Pixels(env))], false)
  }

  /** The tiles of one zoom level, in grid order. */
  function ZoomTiles(st: RunState, env: Inputs, listing: seq<string>, zoom: int, tiles: seq<Tile>): RunState
    requires WarpShaped(env)
  {
    if tiles == [] then st
    else TileStep(ZoomTiles(st, env, listing, zoom, tiles[..|tiles| - 1]), env, listing, zoom, tiles[|tiles| - 1])
  }

  /** The zoom levels from `zoom` to `zoomEnd` inclusive, in increasing order, until one raises. */
  function ZoomLevels(st: RunState, env: Inputs, listing: seq<string>, zoom: int, zoomEnd: int): RunState
    requires WarpShaped(env)
    decreases zoomEnd - zoom
  {
    if zoom > zoomEnd || st.aborted then st
    else ZoomLevels(ZoomTiles(st, env, listing, zoom, env.grid(zoom)), env, listing, zoom + 1, zoomEnd)
  }

  /** Once a prefix of the tiles has raised, the rest of the level changes nothing. */
  lemma {:induction false} ZoomTilesAbortSticks(st: RunState, env: Inputs, listing: seq<string>, zoom: int, tiles: seq<Tile>, k: nat)
    requires WarpShaped(env)
    requires k <= |tiles| && ZoomTiles(st, env, listing, zoom, tiles[..k]).aborted
    ensures ZoomTiles(st, env, listing, zoom, tiles) == ZoomTiles(st, env, listing, zoom, tiles[..k])
    decreases |tiles|
  {
    if k < |tiles| {
      var pre := tiles[..|tiles| - 1];
      assert pre[..k] == tiles[..k];
      ZoomTilesAbortSticks(st, env, listing, zoom, pre, k);
    } else {
      assert tiles[..k] == tiles;
    }
  }

  /** One tile of the loop: merge the rasters into it, then save it if it was filled. */
  method CreateTile(files: Files, env: Inputs, listing: seq<string>, zoom: int, tile: Tile) returns (files': Files, raised: bool)
    requires WarpShaped(env)
    ensures RunState(files', raised) == TileStep(RunState(files, false), env, listing, zoom, tile)
  {
    var data, filled := MergeTile(env, listing, tile);
    files', raised := files, false;
    if filled {
      files', raised := SaveTile(files, data, Pixels(env), env.outputFolder, zoom, tile.x, tile.y);
    }
  }

  /** The tile loop of one zoom level; an exception from save_tile leaves it at once. */
  method CreateZoomTiles(files: Files, env: Inputs, listing: seq<string>, zoom: int) returns (files': Files, aborted: bool)
    requires WarpShaped(env)
    ensures RunState(files', aborted) == ZoomTiles(RunState(files, false), env, listing, zoom, env.grid(zoom))
  {
    var tiles := env.grid(zoom);
    files' := files;
    for j := 0 to |tiles|
      invariant ZoomTiles(RunState(files, false), env, listing, zoom, tiles[..j]) == RunState(files', false)
    {
      assert tiles[..j + 1][..j] == tiles[..j];
      var raised;
      files', raised := CreateTile(files', env, listing, zoom, tiles[j]);
      if raised {
        ZoomTilesAbortSticks(RunState(files, false), env, listing, zoom, tiles, j + 1);
        return files', true;
      }
    }
    assert tiles[..|tiles|] == tiles;
    aborted := false;
  }

  /**
   * create_tiles: every zoom level from start to end, each tile of the world
   * grid in turn; an exception from save_tile ends it.
   */
  method CreateTiles(files: Files, env: Inputs, listing: seq<string>, zoomStart: int, zoomEnd: int) returns (files': Files, aborted: bool)
    requires WarpShaped(env)
    ensures RunState(files', aborted) == ZoomLevels(RunState(files, false), env, listing, zoomStart, zoomEnd)
  {
    files', aborted := files, false;
    var zoom := zoomStart;
    while zoom <= zoomEnd
      invariant ZoomLevels(RunState(files', false), env, listing, zoom, zoomEnd) == ZoomLevels(RunState(files, false), env, listing, zoomStart, zoomEnd)
      decreases zoomEnd - zoom
    {
      files', aborted := CreateZoomTiles(files', env, listing, zoom);
      if aborted {
        return;
      }
      zoom := zoom + 1;
    }
  }

  /**
   * A zoom level raises exactly when the band count is not encodable and
   * some tile of the level is filled; when it raises, no file of the level
   * was written.
   */
  lemma {:induction false} ZoomTilesAbortsIff(files: Files, env: Inputs, listing: seq<string>, zoom: int, tiles: seq<Tile>)
    requires WarpShaped(env)
    ensures var r := ZoomTiles(RunState(files, false), env, listing, zoom, tiles);
            r.aborted <==> !Encodable(env.tileBands) && exists t :: t in tiles && Filled(env, listing, t)
    ensures !Encodable(env.tileBands) ==> ZoomTiles(RunState(files, false), env, listing, zoom, tiles).files == files
  {
    if tiles != [] {
      var pre, last := tiles[..|tiles| - 1], tiles[|tiles| - 1];
      ZoomTilesAbortsIff(files, env, listing, zoom, pre);
      var r := ZoomTiles(RunState(files, false), env, listing, zoom, tiles);
      if r.aborted && !Filled(env, listing, last) {
        var t :| t in pre && Filled(env, listing, t);
        assert t in tiles;
      }
      if t :| t in tiles && Filled(env, listing, t) {
        if t != last {
          assert t in pre;
        }
      }
    }
  }

  /** After a zoom level that encodes, every filled tile's image is at its path. */
  lemma {:induction false} ZoomTilesWritesFilled(files: Files, env: Inputs, listing: seq<string>, zoom: int, tiles: seq<Tile>)
    requires WarpShaped(env) && Encodable(env.tileBands)
    requires forall t :: t in tiles ==> t.z == zoom
    ensures var r := ZoomTiles(RunState(files, false), env, listing, zoom, tiles);
            !r.aborted &&
            forall t :: t in tiles && Filled(env, listing, t) ==>
              TilePath(env.outputFolder, zoom, t.x, t.y) in r.files &&
              r.files[TilePath(env.outputFolder, zoom, t.x, t.y)] == Interleave(TileData(env, listing, t), Pixels(env))
  {
    if tiles != [] {
      var pre, last := tiles[..|tiles| - 1], tiles[|tiles| - 1];
      assert forall t :: t in pre ==> t in tiles;
      ZoomTilesWritesFilled(files, env, listing, zoom, pre);
      var r := ZoomTiles(RunState(files, false), env, listing, zoom, tiles);
      assert r == TileStep(ZoomTiles(RunState(files, false), env, listing, zoom, pre), env, listing, zoom, last);
      forall t | t in tiles && Filled(env, listing, t)
        ensures TilePath(env.outputFolder, zoom, t.x, t.y) in r.files
        ensures r.files[TilePath(env.outputFolder, zoom, t.x, t.y)] == Interleave(TileData(env, listing, t), Pixels(env))
      {
        if t != last {
          assert t in pre;
          if Filled(env, listing, last) && TilePath(env.outputFolder, zoom, t.x, t.y) == TilePath(env.outputFolder, zoom, last.x, last.y) {
            TilePathInjective(env.outputFolder, zoom, t.x, t.y, zoom, last.x, last.y);
          }
        }
      }
    }
  }

  /** One tile step keeps every file but the tile's own path. */
  lemma TileStepFiles(st: RunState, env: Inputs, listing: seq<string>, zoom: int, tile: Tile)
    requires WarpShaped(env)
    ensures var r := TileStep(st, env, listing, zoom, tile).files;
            forall p :: p in r ==>
              (p in st.files && r[p] == st.files[p]) ||
              (Filled(env, listing, tile) && p == TilePath(env.outputFolder, zoom, tile.x, tile.y))
  {
  }

  /** After a zoom level, every file was there before, unchanged, or is a filled tile's. */
  lemma {:induction false} ZoomTilesWritesNothingElse(files: Files, env: Inputs, listing: seq<string>, zoom: int, tiles: seq<Tile>)
    requires WarpShaped(env)
    ensures var r := ZoomTiles(RunState(files, false), env, listing, zoom, tiles).files;
            forall p :: p in r ==>
              (p in files && r[p] == files[p]) ||
              exists t :: t in tiles && Filled(env, listing, t) && p == TilePath(env.outputFolder, zoom, t.x, t.y)
  {
    if tiles != [] {
      var pre, last := tiles[..|tiles| - 1], tiles[|tiles| - 1];
      ZoomTilesWritesNothingElse(files, env, listing, zoom, pre);
      var m := ZoomTiles(RunState(files, false), env, listing, zoom, pre);
      var r := ZoomTiles(RunState(files, false), env, listing, zoom, tiles);
      assert r == TileStep(m, env, listing, zoom, last);
      TileStepFiles(m, env, listing, zoom, last);
      forall p | p in r.files && !(p in files && r.files[p] == files[p])
        ensures exists t :: t in tiles && Filled(env, listing, t) && p == TilePath(env.outputFolder, zoom, t.x, t.y)
      {
        if p in m.files && r.files[p] == m.files[p] {
          var t :| t in pre && Filled(env, listing, t) && p == TilePath(env.outputFolder, zoom, t.x, t.y);
          assert t in tiles;
        } else {
          assert last in tiles;
        }
      }
    }
  }

  /** A tile that is not filled gets no file: its path holds whatever it held before. */
  lemma UnfilledTileNotWritten(files: Files, env: Inputs, listing: seq<string>, zoom: int, tiles: seq<Tile>, t: Tile)
    requires WarpShaped(env)
    requires forall u :: u in tiles ==> u.z == zoom
    requires t in tiles && !Filled(env, listing, t)
    ensures var r := ZoomTiles(RunState(files, false), env, listing, zoom, tiles).files;
            var p := TilePath(env.outputFolder, zoom, t.x, t.y);
            (p in r <==> p in files) && (p in r ==> r[p] == files[p])
  {
    ZoomTilesWritesNothingElse(files, env, listing, zoom, tiles);
    var r := ZoomTiles(RunState(files, false), env, listing, zoom, tiles).files;
    var p := TilePath(env.outputFolder, zoom, t.x, t.y);
    if p in r && !(p in files && r[p] == files[p]) {
      var u :| u in tiles && Filled(env, listing, u) && p == TilePath(env.outputFolder, zoom, u.x, u.y);
      TilePathInjective(env.outputFolder, zoom, t.x, t.y, zoom, u.x, u.y);
      assert false;
    }
    if p in files && p !in r {
      ZoomTilesKeepsFiles(RunState(files, false), env, listing, zoom, tiles);
    }
  }

  /** A zoom level only adds or overwrites files; it never removes one. */
  lemma {:induction false} ZoomTilesKeepsFiles(st: RunState, env: Inputs, listing: seq<string>, zoom: int, tiles: seq<Tile>)
    requires WarpShaped(env)
    ensures st.files.Keys <= ZoomTiles(st, env, listing, zoom, tiles).files.Keys
  {
    if tiles != [] {
      ZoomTilesKeepsFiles(st, env, listing, zoom, tiles[..|tiles| - 1]);
    }
  }

  /** No zoom level removes a file, whether or not the run ends early. */
  lemma {:induction false} ZoomLevelsKeepsFiles(st: RunState, env: Inputs, listing: seq<string>, zoom: int, zoomEnd: int)
    requires WarpShaped(env)
    ensures st.files.Keys <= ZoomLevels(st, env, listing, zoom, zoomEnd).files.Keys
    decreases zoomEnd - zoom
  {
    if zoom <= zoomEnd && !st.aborted {
      var next := ZoomTiles(st, env, listing, zoom, env.grid(zoom));
      ZoomTilesKeepsFiles(st, env, listing, zoom, env.grid(zoom));
      ZoomLevelsKeepsFiles(next, env, listing, zoom + 1, zoomEnd);
    }
  }

  /**
   * create_tiles ends early exactly when the band count is not encodable
   * and some tile of some level from `zoom` to `zoomEnd` is filled; it then
   * has written no file at all.
   */
  lemma {:induction false} ZoomLevelsAbortsIff(files: Files, env: Inputs, listing: seq<string>, zoom: int, zoomEnd: int)
    requires WarpShaped(env)
    ensures var r := ZoomLevels(RunState(files, false), env, listing, zoom, zoomEnd);
            r.aborted <==> !Encodable(env.tileBands) &&
                           exists z, t :: zoom <= z <= zoomEnd && t in env.grid(z) && Filled(env, listing, t)
    ensures !Encodable(env.tileBands) ==> ZoomLevels(RunState(files, false), env, listing, zoom, zoomEnd).files == files
    decreases zoomEnd - zoom
  {
    if zoom <= zoomEnd {
      ZoomTilesAbortsIff(files, env, listing, zoom, env.grid(zoom));
      var next := ZoomTiles(RunState(files, false), env, listing, zoom, env.grid(zoom));
      if !next.aborted {
        ZoomLevelsAbortsIff(next.files, env, listing, zoom + 1, zoomEnd);
      }
    }
  }
  /** After the levels from `zoom` to `zoomEnd`, every file was there before, unchanged, or is a filled tile's of one of those levels. */
  lemma {:induction false} ZoomLevelsWritesNothingElse(st: RunState, env: Inputs, listing: seq<string>, zoom: int, zoomEnd: int)
    requires WarpShaped(env)
    ensures var r := ZoomLevels(st, env, listing, zoom, zoomEnd).files;
            forall p :: p in r ==>
              (p in st.files && r[p] == st.files[p]) ||
              exists z, t :: zoom <= z <= zoomEnd && t in env.grid(z) && Filled(env, listing, t) &&
                             p == TilePath(env.outputFolder, z, t.x, t.y)
    decreases zoomEnd - zoom
  {
    if zoom <= zoomEnd && !st.aborted {
      var next := ZoomTiles(RunState(st.files, false), env, listing, zoom, env.grid(zoom));
      ZoomTilesWritesNothingElse(st.files, env, listing, zoom, env.grid(zoom));
      ZoomLevelsWritesNothingElse(next, env, listing, zoom + 1, zoomEnd);
    }
  }

  /**
   * When the band count encodes, create_tiles runs every level to the end
   * and every filled tile of every level is at its path afterwards: a later
   * level never overwrites an earlier level's tile.
   */
  lemma {:induction false} ZoomLevelsWritesFilled(files: Files, env: Inputs, listing: seq<string>, zoom: int, zoomEnd: int)
    requires WarpShaped(env) && Encodable(env.tileBands)
    requires forall z, t :: t in env.grid(z) ==> t.z == z
    ensures var r := ZoomLevels(RunState(files, false), env, listing, zoom, zoomEnd);
            !r.aborted &&
            forall z, t :: zoom <= z <= zoomEnd && t in env.grid(z) && Filled(env, listing, t) ==>
              TilePath(env.outputFolder, z, t.x, t.y) in r.files &&
              r.files[TilePath(env.outputFolder, z, t.x, t.y)] == Interleave(TileData(env, listing, t), Pixels(env))
    decreases zoomEnd - zoom
  {
    if zoom <= zoomEnd {
      var next := ZoomTiles(RunState(files, false), env, listing, zoom, env.grid(zoom));
      ZoomTilesWritesFilled(files, env, listing, zoom, env.grid(zoom));
      ZoomLevelsWritesFilled(next.files, env, listing, zoom + 1, zoomEnd);
      var r := ZoomLevels(next, env, listing, zoom + 1, zoomEnd);
      assert r == ZoomLevels(RunState(files, false), env, listing, zoom, zoomEnd);
      forall z, t | zoom <= z <= zoomEnd && t in env.grid(z) && Filled(env, listing, t)
        ensures TilePath(env.outputFolder, z, t.x, t.y) in r.files
        ensures r.files[TilePath(env.outputFolder, z, t.x, t.y)] == Interleave(TileData(env, listing, t), Pixels(env))
      {
        if z == zoom {
          LevelTileWritten(files, env, listing, zoom, t);
          LaterLevelsKeepTile(next, env, listing, zoom + 1, zoomEnd, zoom, t.x, t.y);
        }
      }
    }
  }

  /** One filled tile of a level that encodes is at its path once the level is done. */
  lemma LevelTileWritten(files: Files, env: Inputs, listing: seq<string>, zoom: int, t: Tile)
    requires WarpShaped(env) && Encodable(env.tileBands)
    requires forall z, u :: u in env.grid(z) ==> u.z == z
    requires t in env.grid(zoom) && Filled(env, listing, t)
    ensures var r := ZoomTiles(RunState(files, false), env, listing, zoom, env.grid(zoom)).files;
            TilePath(env.outputFolder, zoom, t.x, t.y) in r &&
            r[TilePath(env.outputFolder, zoom, t.x, t.y)] == Interleave(TileData(env, listing, t), Pixels(env))
  {
    ZoomTilesWritesFilled(files, env, listing, zoom, env.grid(zoom));
  }

  /** The levels from `zoom` on leave the tile path of an earlier level as it was. */
  lemma LaterLevelsKeepTile(st: RunState, env: Inputs, listing: seq<string>, zoom: int, zoomEnd: int, z0: int, x: int, y: int)
    requires WarpShaped(env)
    requires z0 < zoom && TilePath(env.outputFolder, z0, x, y) in st.files
    ensures var r := ZoomLevels(st, env, listing, zoom, zoomEnd).files;
            var p := TilePath(env.outputFolder, z0, x, y);
            p in r && r[p] == st.files[p]
  {
    ZoomLevelsWritesNothingElse(st, env, listing, zoom, zoomEnd);
    ZoomLevelsKeepsFiles(st, env, listing, zoom, zoomEnd);
    var r := ZoomLevels(st, env, listing, zoom, zoomEnd).files;
    var p := TilePath(env.outputFolder, z0, x, y);
    if r[p] != st.files[p] {
      var z, u :| zoom <= z <= zoomEnd && u in env.grid(z) && Filled(env, listing, u) &&
                  p == TilePath(env.outputFolder, z, u.x, u.y);
      TilePathInjective(env.outputFolder, z0, x, y, z, u.x, u.y);
      assert false;
    }
  }
}

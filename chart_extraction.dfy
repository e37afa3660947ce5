/**
 * Sectional chart extraction: pick the chart edition's date from the
 * `.htm` pages shipped with the charts, clip each chart GeoTIFF that has a
 * shapefile (expanding palette charts to RGBA), and describe the run in an
 * update-metadata record.
 */
module ChartExtraction {
  import opened Common
  import opened PyStrings
  import opened CivilDates

  // ---------------------------------------------------------------------
  // Palette expansion and nodata
  // ---------------------------------------------------------------------

  /**
   * apply_colormap: an RGBA image of the index image's shape, each pixel
   * the colormap's entry for its index, filled row by row. An index
   * missing from the colormap raises KeyError (None).
   */
  method ApplyColormap(image: array2<int>, colormap: map<int, Pixel>) returns (rgba: Option<array2<Pixel>>)
    ensures rgba.None? <==>
            exists i, j :: 0 <= i < image.Length0 && 0 <= j < image.Length1 && image[i, j] !in colormap
    ensures rgba.Some? ==>
              fresh(rgba.value) &&
              rgba.value.Length0 == image.Length0 && rgba.value.Length1 == image.Length1 &&
              forall i, j :: 0 <= i < image.Length0 && 0 <= j < image.Length1 ==>
                image[i, j] in colormap && rgba.value[i, j] == colormap[image[i, j]]
  {
    var out := new Pixel[image.Length0, image.Length1]((_, _) => Transparent);
    for i := 0 to image.Length0
      invariant forall i', j :: 0 <= i' < i && 0 <= j < image.Length1 ==>
                  image[i', j] in colormap && out[i', j] == colormap[image[i', j]]
    {
      for j := 0 to image.Length1
        invariant forall i', j' :: 0 <= i' < i && 0 <= j' < image.Length1 ==>
                    image[i', j'] in colormap && out[i', j'] == colormap[image[i', j']]
        invariant forall j' :: 0 <= j' < j ==> image[i, j'] in colormap && out[i, j'] == colormap[image[i, j']]
      {
        if image[i, j] !in colormap {
          return None;
        }
        out[i, j] := colormap[image[i, j]];
      }
    }
    return Some(out);
  }

  /**
   * `out_img_rgb[out_img[0] == nodata_value] = [0, 0, 0, 0]`: pixels whose
   * index is the nodata value become transparent, all others keep their
   * colour.
   */
  method ClearNodata(rgba: array2<Pixel>, index: array2<int>, nodata: int)
    requires rgba.Length0 == index.Length0 && rgba.Length1 == index.Length1
    modifies rgba
    ensures forall i, j :: 0 <= i < rgba.Length0 && 0 <= j < rgba.Length1 ==>
              rgba[i, j] == if index[i, j] == nodata then Transparent else old(rgba[i, j])
  {
    forall i, j | 0 <= i < rgba.Length0 && 0 <= j < rgba.Length1 && index[i, j] == nodata {
      rgba[i, j] := Transparent;
    }
  }

  /**
   * The non-palette branch's per-band loop: it writes the nodata value
   * only where the sample already holds it, so the image is unchanged.
   */
  method KeepNodata(img: array3<int>, nodata: int)
    modifies img
    ensures forall b, i, j :: 0 <= b < img.Length0 && 0 <= i < img.Length1 && 0 <= j < img.Length2 ==>
              img[b, i, j] == old(img[b, i, j])
  {
    for band := 0 to img.Length0
      invariant forall b, i, j :: 0 <= b < img.Length0 && 0 <= i < img.Length1 && 0 <= j < img.Length2 ==>
                  img[b, i, j] == old(img[b, i, j])
    {
      forall i, j | 0 <= i < img.Length1 && 0 <= j < img.Length2 && img[band, i, j] == nodata {
        img[band, i, j] := nodata;
      }
    }
  }

  /** The file process_geotiff writes: nothing (it raised), an RGBA chart, or the clipped bands. */
  datatype Clipped = NotWritten | RgbaChart(pixels: array2<Pixel>) | BandChart(bands: array3<int>)

  /**
   * process_geotiff after the clip: `clip` is the masked raster (None when
   * reading the shapefile, opening the raster or masking raised), `palette`
   * whether its first band is palette-indexed. Every exception is caught.
   */
  method ProcessGeotiff(clip: Option<array3<int>>, palette: bool, colormap: map<int, Pixel>, nodata: int)
    returns (out: Clipped)
    modifies if clip.Some? then {clip.value} else {}
    ensures clip.None? ==> out.NotWritten?
    ensures clip.Some? ==>
              forall b, i, j :: 0 <= b < clip.value.Length0 && 0 <= i < clip.value.Length1 && 0 <= j < clip.value.Length2 ==>
                clip.value[b, i, j] == old(clip.value[b, i, j])
    ensures clip.Some? && !palette ==> out == BandChart(clip.value)
    ensures clip.Some? && palette ==>
              var img := clip.value;
              !out.BandChart? &&
              (out.NotWritten? <==>
                 img.Length0 == 0 ||
                 exists i, j :: 0 <= i < img.Length1 && 0 <= j < img.Length2 && img[0, i, j] !in colormap) &&
              (out.RgbaChart? ==>
                 fresh(out.pixels) &&
                 out.pixels.Length0 == img.Length1 && out.pixels.Length1 == img.Length2 &&
                 forall i, j :: 0 <= i < img.Length1 && 0 <= j < img.Length2 ==>
                   img[0, i, j] in colormap &&
                   out.pixels[i, j] == if img[0, i, j] == nodata then Transparent else colormap[img[0, i, j]])
  {
    if clip.None? {
      return NotWritten;
    }
    var img := clip.value;
    if palette {
      if img.Length0 == 0 {
        return NotWritten;
      }
      var first := new int[img.Length1, img.Length2]((i, j) reads img requires 0 <= i < img.Length1 && 0 <= j < img.Length2 => img[0, i, j]);
      assert forall i, j :: 0 <= i < img.Length1 && 0 <= j < img.Length2 ==> first[i, j] == img[0, i, j];
      var rgb := ApplyColormap(first, colormap);
      if rgb.None? {
        return NotWritten;
      }
      ClearNodata(rgb.value, first, nodata);
      forall i, j | 0 <= i < img.Length1 && 0 <= j < img.Length2 ensures img[0, i, j] in colormap {
        assert first[i, j] == img[0, i, j];
      }
      return RgbaChart(rgb.value);
    } else {
      KeepNodata(img, nodata);
      return BandChart(img);
    }
  }

  // ---------------------------------------------------------------------
  // get_latest_date_from_html
  // ---------------------------------------------------------------------

  /** A `.htm` page whose `dc.date` meta tag parsed; `pageDate` is None where reading or parsing raised. */
  predicate DatedPage(directory: string, name: string, pageDate: string -> Option<CivilDate>) {
    EndsWith(name, ".htm") && pageDate(Join(directory, name)).Some?
  }

  function PageDate(directory: string, name: string, pageDate: string -> Option<CivilDate>): CivilDate
    requires DatedPage(directory, name, pageDate)
  {
    pageDate(Join(directory, name)).value
  }

  /**
   * Among the first n names, the page at m is the one the loop keeps: it is
   * dated, strictly later than every dated page before it, and no dated
   * page after it (up to n) is strictly later.
   */
  predicate LatestUpTo(directory: string, listing: seq<string>, pageDate: string -> Option<CivilDate>, m: int, n: int)
    requires 0 <= n <= |listing|
  {
    0 <= m < n && DatedPage(directory, listing[m], pageDate) &&
    (forall k :: 0 <= k < m && DatedPage(directory, listing[k], pageDate) ==>
       Before(PageDate(directory, listing[k], pageDate), PageDate(directory, listing[m], pageDate))) &&
    (forall k :: m < k < n && DatedPage(directory, listing[k], pageDate) ==>
       !Before(PageDate(directory, listing[m], pageDate), PageDate(directory, listing[k], pageDate)))
  }

  /**
   * get_latest_date_from_html: the first dated `.htm` page with the
   * greatest date, or (None, None) when no page is dated.
   */
  method LatestDateFromHtml(directory: string, listing: seq<string>, pageDate: string -> Option<CivilDate>)
    returns (latestFile: Option<string>, latestDate: Option<CivilDate>)
    ensures latestFile.None? <==> latestDate.None?
    ensures latestDate.None? <==> forall k :: 0 <= k < |listing| ==> !DatedPage(directory, listing[k], pageDate)
    ensures latestDate.Some? ==>
              exists m :: LatestUpTo(directory, listing, pageDate, m, |listing|) &&
                          latestFile == Some(listing[m]) &&
                          latestDate == Some(PageDate(directory, listing[m], pageDate))
  {
    latestFile, latestDate := None, None;
    ghost var m := 0;
    for j := 0 to |listing|
      invariant latestFile.None? <==> latestDate.None?
      invariant latestDate.None? <==> forall k :: 0 <= k < j ==> !DatedPage(directory, listing[k], pageDate)
      invariant latestDate.Some? ==>
                  LatestUpTo(directory, listing, pageDate, m, j) &&
                  latestFile == Some(listing[m]) && latestDate == Some(PageDate(directory, listing[m], pageDate))
    {
      var filename := listing[j];
      if EndsWith(filename, ".htm") {
        var filepath := Join(directory, filename);
        var fileDate := pageDate(filepath);
        if fileDate.Some? {
          if latestDate.None? || Before(latestDate.value, fileDate.value) {
            LatestTakesOver(directory, listing, pageDate, latestDate.Some?, m, j);
            latestDate := fileDate;
            latestFile := Some(filename);
            m := j;
          } else {
            LatestStays(directory, listing, pageDate, m, j);
          }
        } else if latestDate.Some? {
          LatestStays(directory, listing, pageDate, m, j);
        }
      } else if latestDate.Some? {
        LatestStays(directory, listing, pageDate, m, j);
      }
    }
  }

  /** A page that is undated, or not strictly later, leaves the choice as it was. */
  lemma LatestStays(directory: string, listing: seq<string>, pageDate: string -> Option<CivilDate>, m: int, j: int)
    requires 0 <= j < |listing| && LatestUpTo(directory, listing, pageDate, m, j)
    requires DatedPage(directory, listing[j], pageDate) ==>
               !Before(PageDate(directory, listing[m], pageDate), PageDate(directory, listing[j], pageDate))
    ensures LatestUpTo(directory, listing, pageDate, m, j + 1)
  {
  }

  /**
   * A dated page that is the first dated one, or strictly later than the
   * current choice, becomes the choice.
   */
  lemma LatestTakesOver(directory: string, listing: seq<string>, pageDate: string -> Option<CivilDate>,
                        some: bool, m: int, j: int)
    requires 0 <= j < |listing| && DatedPage(directory, listing[j], pageDate)
    requires !some ==> forall k :: 0 <= k < j ==> !DatedPage(directory, listing[k], pageDate)
    requires some ==> LatestUpTo(directory, listing, pageDate, m, j) &&
                      Before(PageDate(directory, listing[m], pageDate), PageDate(directory, listing[j], pageDate))
    ensures LatestUpTo(directory, listing, pageDate, j, j + 1)
  {
  }

  /** At most one position is the latest page, so the selection is determined by the listing. */
  lemma LatestIsUnique(directory: string, listing: seq<string>, pageDate: string -> Option<CivilDate>, m: int, m': int)
    requires LatestUpTo(directory, listing, pageDate, m, |listing|)
    requires LatestUpTo(directory, listing, pageDate, m', |listing|)
    ensures m == m'
  {
  }

  /** The selected date is at least every page's date. */
  lemma LatestIsMaximal(directory: string, listing: seq<string>, pageDate: string -> Option<CivilDate>, m: int, k: int)
    requires LatestUpTo(directory, listing, pageDate, m, |listing|)
    requires 0 <= k < |listing| && DatedPage(directory, listing[k], pageDate)
    ensures !Before(PageDate(directory, listing[m], pageDate), PageDate(directory, listing[k], pageDate))
  {
    if k < m {
      assert Before(PageDate(directory, listing[k], pageDate), PageDate(directory, listing[m], pageDate));
    }
  }

  /** Pages named `.html` are never read: `.htm` is not a suffix of them. */
  lemma HtmlPagesIgnored(name: string)
    requires EndsWith(name, ".html")
    ensures !EndsWith(name, ".htm")
  {
    assert name[|name| - 1] == 'l';
  }

  // ---------------------------------------------------------------------
  // The update metadata
  // ---------------------------------------------------------------------

  /** The fixed folder shapefiles are looked up in. */
  const ShapefileFolder: string := "./shapefiles/"

  /** One `maps` entry of update_metadata.json. */
  datatype MapEntry = MapEntry(name: string, lastUpdated: string)

  /** update_metadata.json. */
  datatype UpdateMetadata = UpdateMetadata(lastUpdated: string, maps: seq<MapEntry>)

  /** One process_geotiff call: raster, shapefile and output paths. */
  datatype ClipJob = ClipJob(rasterPath: string, shapefilePath: string, outputPath: string)

  /** `latest_date.isoformat() + 'Z'`. */
  function LastUpdated(d: CivilDate): string {
    Iso(d) + "Z"
  }

  /** `filename.replace('.tif', '.shp')` under the shapefile folder. */
  function ShapefilePath(filename: string): string {
    Join(ShapefileFolder, Replace(filename, ".tif", ".shp"))
  }

  /** The entry for a chart: every `.tif` removed from the file name, and the run's timestamp. */
  function Entry(filename: string, stamp: string): MapEntry {
    MapEntry(Replace(filename, ".tif", ""), stamp)
  }

  function Job(inputFolder: string, outputFolder: string, filename: string): ClipJob {
    ClipJob(Join(inputFolder, filename), ShapefilePath(filename), Join(outputFolder, filename))
  }

  /** `tiff_files`: the listed names ending in `.tif`, in listing order. */
  function TiffFiles(listing: seq<string>): (r: seq<string>)
    ensures forall k :: 0 <= k < |r| ==> EndsWith(r[k], ".tif")
  {
    if listing == [] then []
    else if EndsWith(listing[|listing| - 1], ".tif") then TiffFiles(listing[..|listing| - 1]) + [listing[|listing| - 1]]
    else TiffFiles(listing[..|listing| - 1])
  }

  /** The charts of `tiffs` whose shapefile exists, in order. */
  function Charted(tiffs: seq<string>, shapefileExists: string -> bool): seq<string>
  {
    if tiffs == [] then []
    else if shapefileExists(ShapefilePath(tiffs[|tiffs| - 1])) then Charted(tiffs[..|tiffs| - 1], shapefileExists) + [tiffs[|tiffs| - 1]]
    else Charted(tiffs[..|tiffs| - 1], shapefileExists)
  }

  /**
   * The loop of main over `tiff_files`: a chart whose shapefile exists is
   * clipped and gets a `maps` entry whatever the clip did; one without is
   * only logged.
   */
  method BuildMaps(inputFolder: string, outputFolder: string, tiffs: seq<string>,
                   shapefileExists: string -> bool, stamp: string)
    returns (maps: seq<MapEntry>, jobs: seq<ClipJob>)
    ensures var charted := Charted(tiffs, shapefileExists);
            |maps| == |jobs| == |charted| &&
            forall k :: 0 <= k < |charted| ==>
              maps[k] == Entry(charted[k], stamp) && jobs[k] == Job(inputFolder, outputFolder, charted[k])
  {
    maps, jobs := [], [];
    for j := 0 to |tiffs|
      invariant var charted := Charted(tiffs[..j], shapefileExists);
                |maps| == |jobs| == |charted| &&
                forall k :: 0 <= k < |charted| ==>
                  maps[k] == Entry(charted[k], stamp) && jobs[k] == Job(inputFolder, outputFolder, charted[k])
    {
      var filename := tiffs[j];
      assert tiffs[..j + 1][..j] == tiffs[..j];
      var rasterPath := Join(inputFolder, filename);
      var shapefilePath := Join(ShapefileFolder, Replace(filename, ".tif", ".shp"));
      var outputPath := Join(outputFolder, filename);
      if shapefileExists(shapefilePath) {
        jobs := jobs + [ClipJob(rasterPath, shapefilePath, outputPath)];
        maps := maps + [MapEntry(Replace(filename, ".tif", ""), stamp)];
      }
    }
    assert tiffs[..|tiffs|] == tiffs;
  }

  /** A chart gets an entry exactly when it is a listed `.tif` whose shapefile exists. */
  lemma {:induction false} ChartedMembers(tiffs: seq<string>, shapefileExists: string -> bool)
    ensures forall f :: f in Charted(tiffs, shapefileExists) <==> f in tiffs && shapefileExists(ShapefilePath(f))
  {
    if tiffs != [] {
      ChartedMembers(tiffs[..|tiffs| - 1], shapefileExists);
      assert tiffs == tiffs[..|tiffs| - 1] + [tiffs[|tiffs| - 1]];
    }
  }

  /** `tiff_files` holds exactly the listed names that end in `.tif`. */
  lemma {:induction false} TiffFilesMembers(listing: seq<string>)
    ensures forall f :: f in TiffFiles(listing) <==> f in listing && EndsWith(f, ".tif")
  {
    if listing != [] {
      TiffFilesMembers(listing[..|listing| - 1]);
      assert listing == listing[..|listing| - 1] + [listing[|listing| - 1]];
    }
  }

  /** No proper prefix of `.tif` is also a suffix of it. */
  lemma TifUnbordered()
    ensures Unbordered(".tif")
  {
    forall k | 0 < k < 4 ensures ".tif"[..k] != ".tif"[4 - k..] {
      assert ".tif"[..k][0] == '.';
      assert ".tif"[4 - k..][0] == ".tif"[4 - k] != '.';
    }
  }

  /**
   * For a chart named `<stem>.tif` with no other `.tif` in it, the entry's
   * name is the stem and the shapefile is `<stem>.shp`.
   */
  lemma ChartNames(stem: string, stamp: string)
    requires !Occurs(stem, ".tif")
    ensures Entry(stem + ".tif", stamp).name == stem
    ensures ShapefilePath(stem + ".tif") == Join(ShapefileFolder, stem + ".shp")
  {
    TifUnbordered();
    ReplaceFinalOccurrence(stem, ".tif", "");
    ReplaceFinalOccurrence(stem, ".tif", ".shp");
    assert stem + "" == stem;
  }

  /**
   * main after the date lookup: the metadata record (None when no page is
   * dated, so no file is written), whether the staleness warning is
   * printed, and the process_geotiff calls made.
   */
  method ExtractCharts(inputFolder: string, outputFolder: string, listing: seq<string>,
                       pageDate: string -> Option<CivilDate>, now: Now, shapefileExists: string -> bool)
    returns (metadata: Option<UpdateMetadata>, warning: bool, jobs: seq<ClipJob>)
    ensures metadata.None? <==> forall k :: 0 <= k < |listing| ==> !DatedPage(inputFolder, listing[k], pageDate)
    ensures metadata.None? ==> !warning && jobs == []
    ensures metadata.Some? ==>
              exists m :: LatestUpTo(inputFolder, listing, pageDate, m, |listing|) &&
                var latest := PageDate(inputFolder, listing[m], pageDate);
                var charted := Charted(TiffFiles(listing), shapefileExists);
                metadata.value.lastUpdated == LastUpdated(latest) &&
                warning == Stale(now, latest) &&
                |metadata.value.maps| == |jobs| == |charted| &&
                forall k :: 0 <= k < |charted| ==>
                  metadata.value.maps[k] == Entry(charted[k], LastUpdated(latest)) &&
                  jobs[k] == Job(inputFolder, outputFolder, charted[k])
  {
    var latestFile, latestDate := LatestDateFromHtml(inputFolder, listing, pageDate);
    if latestFile.None? {
      return None, false, [];
    }
    var latestIso := LastUpdated(latestDate.value);
    warning := AgeDays(now, latestDate.value) >= 56;
    var tiffFiles := TiffFiles(listing);
    var maps;
    maps, jobs := BuildMaps(inputFolder, outputFolder, tiffFiles, shapefileExists, latestIso);
    metadata := Some(UpdateMetadata(latestIso, maps));
  }
}

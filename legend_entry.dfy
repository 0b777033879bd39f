/** A rendered legend entry: its image, description, zoom range and properties, and the
    pixel-wise comparison of two entries' images. */
module Entries {
  import opened Errors
  import opened Strings
  import opened Dicts

  /** The characters legend_entry.clean_name keeps: [-a-zA-Z0-9_]. */
  predicate IsIdChar(c: char) {
    'a' <= c <= 'z' || 'A' <= c <= 'Z' || '0' <= c <= '9' || c == '_' || c == '-'
  }

  /** clean_name: removes every character outside [-a-zA-Z0-9_], keeping the order of the rest. */
  function CleanName(s: string): (r: string)
    ensures forall i :: 0 <= i < |r| ==> IsIdChar(r[i])
  {
    Keep(s, IsIdChar)
  }

  /** The name is cleaned piece by piece: cleaning a + b cleans a and b and keeps their order;
      one character survives exactly when it is allowed. */
  lemma CleanNameCharwise(a: string, b: string, c: char)
    ensures CleanName(a + b) == CleanName(a) + CleanName(b)
    ensures CleanName([c]) == if IsIdChar(c) then [c] else []
  {
    KeepConcat(a, b, IsIdChar);
    assert [c][1..] == [];
  }

  /** A clean name is returned unchanged, and only a clean name is; cleaning twice is cleaning once. */
  lemma CleanNameFixedPoints(s: string)
    ensures CleanName(s) == s <==> forall i :: 0 <= i < |s| ==> IsIdChar(s[i])
    ensures CleanName(CleanName(s)) == CleanName(s)
  {
    KeepUnchanged(s, IsIdChar);
    KeepIdempotent(s, IsIdChar);
  }

  type Byte = b: int | 0 <= b < 256

  datatype Rgba = Rgba(r: Byte, g: Byte, b: Byte, a: Byte)

  /** A decoded image: rows[y][x] is the pixel at (x, y). */
  datatype Image = Image(width: nat, height: nat, rows: seq<seq<Rgba>>)

  predicate Grid(img: Image) {
    |img.rows| == img.height && forall y :: 0 <= y < |img.rows| ==> |img.rows[y]| == img.width
  }

  /** Image.getpixel((x, y)). */
  function Pixel(img: Image, x: nat, y: nat): Rgba
    requires Grid(img) && x < img.width && y < img.height
  {
    img.rows[y][x]
  }

  /** The image files on disk, by path. */
  type ImageFiles = map<string, Image>

  predicate FilesWellFormed(files: ImageFiles) {
    forall p :: p in files ==> Grid(files[p])
  }

  /** Same size and the same pixel at every position. */
  predicate SameImage(a: Image, b: Image)
    requires Grid(a) && Grid(b)
  {
    && a.width == b.width && a.height == b.height
    && forall x, y :: 0 <= x < a.width && 0 <= y < a.height ==> Pixel(a, x, y) == Pixel(b, x, y)
  }

  /** Pixel-wise equality is equality of the images. */
  lemma SameImageIsEquality(a: Image, b: Image)
    requires Grid(a) && Grid(b)
    ensures SameImage(a, b) <==> a == b
  {
    if SameImage(a, b) {
      forall y | 0 <= y < a.height ensures a.rows[y] == b.rows[y] {
        assert forall x :: 0 <= x < a.width ==> a.rows[y][x] == Pixel(a, x, y);
      }
      assert a.rows == b.rows;
    }
  }

  datatype LegendEntry = LegendEntry(
    image: string,
    imageDirectory: string,
    description: string,
    minzoom: int,
    maxzoom: int,
    zoom: int,
    properties: map<string, string>)

  /** LegendEntry(image, description, zoom, properties, images_directory): the range is the single zoom. */
  function NewEntry(image: string, description: string, zoom: int, properties: map<string, string>, imagesDirectory: string)
    : (e: LegendEntry)
    ensures e.minzoom == zoom && e.maxzoom == zoom && e.zoom == zoom
    ensures e.image == image && e.imageDirectory == imagesDirectory
    ensures e.description == description && e.properties == properties
  {
    LegendEntry(image, imagesDirectory, description, zoom, zoom, zoom, properties)
  }

  /** LegendEntry.image_name: "<image>-<zoom>.png". */
  function ImageName(e: LegendEntry): string {
    e.image + "-" + IntToString(e.zoom) + ".png"
  }

  /** The image name follows the entry's zoom and ignores its range: two entries of the same
      image share a name exactly when their zooms agree. */
  lemma ImageNameByZoom(e: LegendEntry, f: LegendEntry)
    requires e.image == f.image
    ensures ImageName(e) == ImageName(f) <==> e.zoom == f.zoom
  {
    if ImageName(e) == ImageName(f) {
      var pre := e.image + "-";
      var n := ImageName(e);
      assert n == pre + IntToString(e.zoom) + ".png";
      assert ImageName(f) == pre + IntToString(f.zoom) + ".png";
      assert n[|pre|..|n| - 4] == IntToString(e.zoom);
      assert n[|pre|..|n| - 4] == IntToString(f.zoom);
      IntToStringInjective(e.zoom, f.zoom);
    }
  }

  /** LegendEntry.get_image_file_path: the images directory joined with the image name. */
  function ImageFilePath(e: LegendEntry): (p: string)
    ensures |p| >= |ImageName(e)| && p[|p| - |ImageName(e)|..] == ImageName(e)
  {
    JoinPath(e.imageDirectory, ImageName(e))
  }

  /** The path os.path.join builds: one '/' between the directory and the image name unless
      the directory is empty or already ends in '/'; an image starting with '/' is absolute
      and replaces the directory. */
  lemma ImageFilePathLayout(e: LegendEntry)
    ensures e.image != [] && e.image[0] == '/' ==> ImageFilePath(e) == ImageName(e)
    ensures (e.image == [] || e.image[0] != '/') && (e.imageDirectory == [] || e.imageDirectory[|e.imageDirectory| - 1] == '/')
            ==> ImageFilePath(e) == e.imageDirectory + ImageName(e)
    ensures (e.image == [] || e.image[0] != '/') && !(e.imageDirectory == [] || e.imageDirectory[|e.imageDirectory| - 1] == '/')
            ==> ImageFilePath(e) == e.imageDirectory + "/" + ImageName(e)
  {
    assert ImageName(e)[0] == if e.image == [] then '-' else e.image[0];
  }

  datatype DictValue = Str(s: string) | Int(i: int) | Props(p: map<string, string>)

  /** The keys of LegendEntry.as_dict, in the order it builds them. */
  const DictKeys: seq<string> := ["description", "minzoom", "maxzoom", "properties", "image"]

  lemma DictKeysDistinct()
    ensures forall i, j :: 0 <= i < j < |DictKeys| ==> DictKeys[i] != DictKeys[j]
    ensures (set k | k in DictKeys) == {"description", "minzoom", "maxzoom", "properties", "image"}
  {
    assert "minzoom"[1] != "maxzoom"[1];
  }

  /** LegendEntry.as_dict: exactly the five output keys, in the order the dict is built
      (the four copied attributes in attribute order, then `image`); `image` is the full
      file path. */
  function AsDict(e: LegendEntry): (d: Dict<string, DictValue>)
    ensures d.Valid()
    ensures d.keys == DictKeys
    ensures d.vals["description"] == Str(e.description) && d.vals["properties"] == Props(e.properties)
    ensures d.vals["minzoom"] == Int(e.minzoom) && d.vals["maxzoom"] == Int(e.maxzoom)
    ensures d.vals["image"] == Str(ImageFilePath(e))
  {
    DictKeysDistinct();
    Dict(DictKeys,
         map["description" := Str(e.description), "minzoom" := Int(e.minzoom), "maxzoom" := Int(e.maxzoom),
             "properties" := Props(e.properties), "image" := Str(ImageFilePath(e))])
  }

  /** What compare_image answers for two image paths: the first file that cannot be opened
      is an error, different sizes are unequal, otherwise every pixel must agree. */
  function ImageComparison(path1: string, path2: string, files: ImageFiles): Result<bool>
    requires FilesWellFormed(files)
  {
    if path1 !in files then Err(FileNotFoundError(path1))
    else if path2 !in files then Err(FileNotFoundError(path2))
    else Ok(SameImage(files[path1], files[path2]))
  }

  /** LegendEntry.compare_image: a column-by-column scan that stops at the first differing pixel. */
  method CompareImage(self: LegendEntry, other: LegendEntry, files: ImageFiles) returns (r: Result<bool>)
    requires FilesWellFormed(files)
    ensures r == ImageComparison(ImageFilePath(self), ImageFilePath(other), files)
  {
    var path1 := ImageFilePath(self);
    if path1 !in files {
      return Err(FileNotFoundError(path1));
    }
    var image1 := files[path1];
    var width1, height1 := image1.width, image1.height;
    var path2 := ImageFilePath(other);
    if path2 !in files {
      return Err(FileNotFoundError(path2));
    }
    var image2 := files[path2];
    if width1 != image2.width || height1 != image2.height {
      return Ok(false);
    }
    var x := 0;
    while x < width1
      invariant 0 <= x <= width1
      invariant forall i, j :: 0 <= i < x && 0 <= j < height1 ==> Pixel(image1, i, j) == Pixel(image2, i, j)
    {
      var y := 0;
      while y < height1
        invariant 0 <= y <= height1
        invariant forall j :: 0 <= j < y ==> Pixel(image1, x, j) == Pixel(image2, x, j)
      {
        if Pixel(image1, x, y) != Pixel(image2, x, y) {
          return Ok(false);
        }
        y := y + 1;
      }
      x := x + 1;
    }
    return Ok(true);
  }

  /** What equals answers: description and properties first; images are compared only when both match. */
  function Equality(a: LegendEntry, b: LegendEntry, files: ImageFiles): Result<bool>
    requires FilesWellFormed(files)
  {
    if a.description == b.description && a.properties == b.properties
    then ImageComparison(ImageFilePath(a), ImageFilePath(b), files)
    else Ok(false)
  }

  /** LegendEntry.equals. */
  method Equals(self: LegendEntry, other: LegendEntry, files: ImageFiles) returns (r: Result<bool>)
    requires FilesWellFormed(files)
    ensures r == Equality(self, other, files)
  {
    if self.description == other.description && self.properties == other.properties {
      r := CompareImage(self, other, files);
    } else {
      r := Ok(false);
    }
  }

  /** Entries whose metadata differ are unequal whatever the files hold: no image is read. */
  lemma MetadataDecidesFirst(a: LegendEntry, b: LegendEntry, files1: ImageFiles, files2: ImageFiles)
    requires FilesWellFormed(files1) && FilesWellFormed(files2)
    requires a.description != b.description || a.properties != b.properties
    ensures Equality(a, b, files1) == Equality(a, b, files2) == Ok(false)
  {
  }

  /** An entry that equals another has the same description, properties and image content. */
  lemma EqualEntriesShareImage(a: LegendEntry, b: LegendEntry, files: ImageFiles)
    requires FilesWellFormed(files) && Equality(a, b, files) == Ok(true)
    ensures a.description == b.description && a.properties == b.properties
    ensures ImageFilePath(a) in files && ImageFilePath(b) in files
    ensures files[ImageFilePath(a)] == files[ImageFilePath(b)]
  {
    SameImageIsEquality(files[ImageFilePath(a)], files[ImageFilePath(b)]);
  }

  /** equals is symmetric: it fails for both orders or for neither, and agrees when it answers. */
  lemma EqualsSymmetric(a: LegendEntry, b: LegendEntry, files: ImageFiles)
    requires FilesWellFormed(files)
    ensures Equality(a, b, files).Ok? <==> Equality(b, a, files).Ok?
    ensures Equality(a, b, files).Ok? ==> Equality(a, b, files).value == Equality(b, a, files).value
  {
    var pa, pb := ImageFilePath(a), ImageFilePath(b);
    if pa in files && pb in files {
      SameImageIsEquality(files[pa], files[pb]);
      SameImageIsEquality(files[pb], files[pa]);
    }
  }
}

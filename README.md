# mapnik-legendary: a Dafny model of the legend decisions

mapnik-legendary draws a legend for a Mapnik map style. Each legend item becomes a small
synthetic map, rendered into its own PNG file. An item is a *feature*, with a name, an
optional description and an optional list of *parts*. Each part has tags, a geometry
kind and the map layers that should draw it.

This project models the decision logic around the rendering:

- **Geometry** (`geometry.dfy`): the box for a zoom level and image size, and the
  proportional shape each geometry kind draws inside it.
- **Parts** (`part.dfy`): how tags are merged with the global extra tags, and which
  layers are chosen. It also builds the one-record CSV data source, which adds a `wkt`
  column to the part's own tags. The part is a class because `to_csv` changes it.
- **Features** (`feature.dfy`): name and description defaulting, one part per
  definition (built in a loop), and the envelope taken from the first part.
- **Styles** (`layer_styles.dfy`): the layer-to-styles snapshot taken from the map, the
  `[]` default lookup, and building a render layer for a part.
- **Entries** (`legend_entry.dfy`): the entry record, the file-name sanitiser, the image
  path, the dictionary form, and the pixel-wise image comparison behind `equals`.
- **Legendary** (`legendary.dfy`): the driver's helpers. These are its own sanitiser,
  the layer clearing loop, background-colour normalisation, the background-only pixel
  scan, the zoom choice, the file id fallback, the collision-free file name search, and
  the translation of renderer "missing attribute" errors.
- **HtmlWriters** and **DocWriters**: the two list accumulators of the output writers.

Three helper modules support these:

- **Errors**: Option, Result, and the Python exceptions with their texts.
- **Strings**: `str(int)`, ASCII `str.upper`, POSIX `os.path.join`, and character
  filtering.
- **Dicts**: Python's insertion-ordered dict.

Python exceptions are results: a member that can raise returns `Err(...)` with the
exception the code raises, on the path where it raises it. The exceptions are those that
follow from the inputs as modelled here; "## Left out" names those that follow from
inputs the model does not represent (YAML null values) and from float arithmetic
(extreme zoom levels). The files on disk are a
map from path to image, and an image is a grid of RGBA pixels. For the name search,
the existing files are a finite set of paths.

Geometry coordinates are reals. The width of the projected world in metres comes from
the map projection, so it is a positive parameter (`MapFrame.worldWidth`). The zoom is
any integer, and `2 ** zoom` is computed exactly for negative zooms too. The code
computes in binary floating point; the exact reals agree with it only where no float
overflows or underflows (see "## Left out").

Two behaviours are kept as the code has them:

- A feature without a description gets its name upper-cased (feature.py:7), not the
  name verbatim.
- An unknown geometry kind is not rejected. It draws the diagonal line, as the final
  `else` of geometry.py:38-39 does.

## Model

| member | source | states |
|---|---|---|
| Geometry.TileScaleStep | mapnik_legendary/geometry.py:7 | `2 ** (zoom + 1)` is twice `2 ** zoom` for every integer zoom, negative ones included |
| Geometry.ImageMetres | mapnik_legendary/geometry.py:7-10 | the image extent in metres is never negative |
| Geometry.ImageMetresScale | mapnik_legendary/geometry.py:7-10 | the image extent in metres times the world width in pixels (`2 ** zoom * 256`) equals the pixel count times the world width in metres |
| Geometry.Synthesize | mapnik_legendary/geometry.py:5-39 | fails exactly for "polygon-with-hole", with the TypeError (`sequence item 0: expected str instance, float found`) its `" ".join` of floats raises; otherwise the box starts at (0, 0) |
| Geometry.SynthesizeBox | mapnik_legendary/geometry.py:7-13 | for every other kind, `max_x` and `max_y` times the world width in pixels are the image width and height times the world width in metres, with the same world width for both axes |
| Geometry.EnvelopeOf | mapnik_legendary/geometry.py:44-45 | the envelope carries exactly the geometry's four bounds |
| Geometry.MetresHalve | mapnik_legendary/geometry.py:7-10 | a fixed pixel count covers half as many metres one zoom level deeper |
| Geometry.ZoomHalvesBox | mapnik_legendary/geometry.py:7-13 | for any kind that builds, `max_x` and `max_y` at zoom z are twice those at z + 1 |
| Geometry.TemplateInsideEnvelope | mapnik_legendary/geometry.py:17-45 | every vertex of every shape that builds lies inside the geometry's envelope |
| Geometry.PointPlacement | mapnik_legendary/geometry.py:17-20 | "point" lies at the centre of the box; "point75" lies at half the width and three quarters of the height |
| Geometry.PolygonIsBox | mapnik_legendary/geometry.py:21-22 | "polygon" is one closed ring through the four corners of the envelope, starting and ending at the origin |
| Geometry.GapSegmentsApart | mapnik_legendary/geometry.py:23-24 | "linestring-with-gap" is exactly two two-vertex strokes: from the origin to 0.45 of the box, and from 0.55 of the box to the far corner; for a non-empty image every vertex of the first is strictly below and to the left of every vertex of the second, so they do not touch |
| Geometry.UnknownKindIsDiagonal | mapnik_legendary/geometry.py:38-39 | any kind not recognised, an absent kind included, draws the line from (min_x, min_y) to (max_x, max_y) |
| Parts.MergeTags | mapnik_legendary/part.py:10-19 | succeeds exactly when the part has tags (a missing `tags` key reaches `update(None)`, a TypeError), and then gives a dict with no duplicate keys |
| Parts.MergeTagsValues | mapnik_legendary/part.py:17-18 | the merged keys are the extra tags together with the given tags; a given key keeps its value, and an extra key not given maps to None |
| Parts.MergeTagsOrder | mapnik_legendary/part.py:17-18 | the merged key order is the extra tags (first occurrences), then the given keys not among them, in their own order |
| Parts.ChooseLayers | mapnik_legendary/part.py:24-30 | `layer` gives the one-element list even when `layers` is present; otherwise `layers` is taken verbatim; with neither, the error is the MapnikLegendaryError naming the feature/part |
| Parts.PartValue | mapnik_legendary/part.py:21-30 | Part.__init__ as a value: merge the tags, synthesize the geometry, choose the layers, and stop at the first step that fails; Parts.PartValueLaw states its cases |
| Parts.PartValueLaw | mapnik_legendary/part.py:21-30 | the part builds exactly when it has tags, a kind other than polygon-with-hole, and a layer key; the built part holds the merged tags, the synthesized geometry and the chosen layers; each failure carries the exception of the step that raises first: the tags' TypeError, then the geometry's TypeError, then the missing-layers error |
| Parts.Record | mapnik_legendary/part.py:35-37 | one header listing the tag keys in order, and one row of the same length holding each key's value at the key's position |
| Parts.WktColumn | mapnik_legendary/part.py:34-37 | after adding `wkt`, a new `wkt` column comes last and an existing one keeps its place; its cell holds the geometry, and every other cell keeps its tag value |
| Parts.ToCsvIdempotent | mapnik_legendary/part.py:32-38 | a second `to_csv` leaves the tags as the first left them and writes the same record |
| Parts.Part.constructor | mapnik_legendary/part.py:21-30 | a new part holds the given tags, geometry and layers |
| Parts.Part.ToCsv | mapnik_legendary/part.py:32-38 | the part's own tags gain `wkt` = its geometry, and the record returned is the one for the updated tags |
| Parts.Build | mapnik_legendary/part.py:21-30 | fails exactly when the part value fails, with the same exception; otherwise returns a fresh part whose state is that value |
| Features.BuildParts | mapnik_legendary/feature.py:9-13 | the parts of a feature, built in list order, stopping at the first definition that fails; Features.BuildPartsLaw, BuildPartsAllBuild and BuildPartsFirstError state its laws |
| Features.BuildPartsLaw | mapnik_legendary/feature.py:9-13 | when every definition builds, there is one part per definition, in order, each built with the same zoom, extra tags and name; otherwise the error is the one from the first definition that fails |
| Features.BuildPartsAllBuild | mapnik_legendary/feature.py:10-11 | when every definition builds, there is one part per definition, in order, each built with the same zoom, extra tags and name |
| Features.BuildPartsFirstError | mapnik_legendary/feature.py:10-11 | the first failing definition's error is the result of building the list |
| Features.BuildPartsAllOk | mapnik_legendary/feature.py:10-11 | when every definition builds, the list is exactly the parts built one by one |
| Features.FeatureValue | mapnik_legendary/feature.py:5-13 | a missing name is `KeyError('name')`; a built feature carries the given name, and the given description or else the upper-cased name |
| Features.SinglePart | mapnik_legendary/feature.py:12-13 | without `parts`, the feature builds exactly when the part built from its own definition does, and then has just that one part |
| Features.PartPerElement | mapnik_legendary/feature.py:9-11 | with `parts`, when every element builds, the feature has one part per element, in list order |
| Features.FeatureFirstError | mapnik_legendary/feature.py:9-11 | with `parts`, the first element that fails decides the feature's error |
| Features.FeatureEnvelope | mapnik_legendary/feature.py:15-16 | the envelope of the first part's geometry; a feature without parts raises IndexError |
| Features.EnvelopeFirstPartOnly | mapnik_legendary/feature.py:15-16 | replacing every part after the first never changes the envelope |
| Features.EnvelopeOfBuiltFeature | mapnik_legendary/feature.py:5-16 | a built feature's envelope exists exactly when it has at least one part definition, and is then the box synthesized for its first definition's kind |
| Features.Feature.constructor | mapnik_legendary/feature.py:5-8 | a new feature holds the given name, description and parts |
| Features.Feature.EnvelopeValue | mapnik_legendary/feature.py:15-16 | the object's envelope is the envelope of the feature value it holds |
| Features.BuildPartList | mapnik_legendary/feature.py:8-13 | the append loop yields fresh parts whose states are the part list's values, or the first definition's error |
| Features.Build | mapnik_legendary/feature.py:5-13 | fails exactly when the feature value fails, with the same exception; otherwise returns a fresh feature whose state is that value |
| Styles.Snapshot | mapnik_legendary/layer_styles.py:16-21 | the style lists by layer name, filled in layer order so a later layer overwrites an earlier one; Styles.SnapshotNames, SnapshotLastWins and UnknownLayerHasNoStyles state its laws |
| Styles.SnapshotNames | mapnik_legendary/layer_styles.py:16-21 | the snapshot has an entry for a name exactly when some map layer carries that name |
| Styles.SnapshotLastWins | mapnik_legendary/layer_styles.py:17-21 | a name maps to the style list of the last layer carrying it, in that layer's order |
| Styles.UnknownLayerHasNoStyles | mapnik_legendary/layer_styles.py:23-25 | the lookup gives `[]` for a name no layer carries |
| Styles.LayerStyles.constructor | mapnik_legendary/layer_styles.py:11-21 | the copying loops fill the dict with exactly the snapshot of the map's layers |
| Styles.LayerStyles.GetStyles | mapnik_legendary/layer_styles.py:23-25 | never fails: the stored list for a known layer, `[]` for an unknown one |
| Styles.LayerStyles.PrepareLayer | mapnik_legendary/layer_styles.py:27-36 | the part gains `wkt` on every path; no styles gives None; otherwise a layer with the given name and projection, the part's record as data and the layer's styles in order |
| Entries.CleanName | mapnik_legendary/legend_entry.py:8-10 | the result holds only `[-a-zA-Z0-9_]` characters |
| Entries.CleanNameCharwise | mapnik_legendary/legend_entry.py:8-10 | cleaning works character by character: it distributes over concatenation, and one character survives exactly when it is allowed (so order is kept) |
| Entries.CleanNameFixedPoints | mapnik_legendary/legend_entry.py:8-10 | a name is returned unchanged exactly when it is already clean; cleaning twice is cleaning once |
| Entries.SameImageIsEquality | mapnik_legendary/legend_entry.py:45-50 | same size and the same pixel at every (x, y) is exactly equality of the two images |
| Entries.NewEntry | mapnik_legendary/legend_entry.py:14-21 | a new entry's `minzoom`, `maxzoom` and `zoom` are all the given zoom, and it keeps the other fields as given |
| Entries.ImageName | mapnik_legendary/legend_entry.py:28-29 | the file name `<image>-<zoom>.png`; Entries.ImageNameByZoom states which entries share it |
| Entries.ImageNameByZoom | mapnik_legendary/legend_entry.py:28-29 | two entries of the same image share an image name exactly when their zooms are equal, whatever their zoom ranges |
| Entries.ImageFilePath | mapnik_legendary/legend_entry.py:31-32 | the path ends with the image name |
| Entries.ImageFilePathLayout | mapnik_legendary/legend_entry.py:31-32 | the path is the directory, one '/' unless the directory is empty or already ends in '/', and the image name; an image starting with '/' replaces the directory |
| Entries.AsDict | mapnik_legendary/legend_entry.py:23-26 | exactly the keys description, minzoom, maxzoom, properties and image, in that order; each holds the entry's field, and image is the full file path |
| Entries.CompareImage | mapnik_legendary/legend_entry.py:37-51 | the column-by-column scan answers false for different sizes, otherwise true exactly when every pixel agrees; a file that cannot be opened is an error |
| Entries.Equals | mapnik_legendary/legend_entry.py:34-35 | description, then properties, then the image comparison, short-circuited |
| Entries.MetadataDecidesFirst | mapnik_legendary/legend_entry.py:34-35 | entries whose description or properties differ are unequal, whatever the files hold |
| Entries.EqualEntriesShareImage | mapnik_legendary/legend_entry.py:34-51 | equal entries have the same description, the same properties and identical image content |
| Entries.EqualsSymmetric | mapnik_legendary/legend_entry.py:34-51 | `a.equals(b)` fails exactly when `b.equals(a)` does, and otherwise gives the same answer |
| Legendary.CleanName | mapnik_legendary/mapnik_legendary.py:15-17 | the result holds only word characters, whitespace, `_` and `-` |
| Legendary.CleanNameLaws | mapnik_legendary/mapnik_legendary.py:15-17 | a name is returned unchanged exactly when it is clean; cleaning is idempotent and distributes over concatenation; a single character survives exactly when it is allowed, so every other character is deleted and the order of the rest is kept |
| Legendary.ClearLayers | mapnik_legendary/mapnik_legendary.py:19-24 | deleting from the last index down leaves the layer list empty (each deletion keeping a prefix of the original is the loop invariant) |
| Legendary.NormaliseBackground | mapnik_legendary/mapnik_legendary.py:30-41 | "transparent" becomes `#ffffff00`, and a missing `#` is added; a length other than 7 or 9 raises the MapnikLegendaryError; otherwise the result has 9 characters: a 7-character `#`-prefixed colour gains exactly `ff`, and a 9-character one is kept as it is |
| Legendary.NormaliseIdempotent | mapnik_legendary/mapnik_legendary.py:30-41 | a normalised colour normalises to itself |
| Legendary.ImageOnlyBackground | mapnik_legendary/mapnik_legendary.py:27-50 | the scan answers the check in order: a missing file is an error; then a colour of the wrong length raises; then a colour that is not hex raises ValueError; otherwise true exactly when every pixel equals the colour, is fully transparent, or has the colour's alpha |
| Legendary.ParseColour | mapnik_legendary/mapnik_legendary.py:44 | the RGBA colour of a `#` plus eight hex digits text, or none when a digit is not hex; Legendary.ParseColourAccepts, ParseColourCaseless, ParseColourRoundTrip, TransparentColour and SixDigitColourIsOpaque state its laws |
| Legendary.ParseColourAccepts | mapnik_legendary/mapnik_legendary.py:44 | a `#` plus eight characters parses exactly when all eight are hex digits; otherwise getcolor's ValueError |
| Legendary.ParseColourCaseless | mapnik_legendary/mapnik_legendary.py:44 | hex digits are read in either case: upper-casing a colour text does not change the colour it gives |
| Legendary.ParseColourRoundTrip | mapnik_legendary/mapnik_legendary.py:44 | reading a colour written as `#rrggbbaa` gives that colour back |
| Legendary.TransparentColour | mapnik_legendary/mapnik_legendary.py:30-31 | "transparent" becomes `#ffffff00`, read as white with alpha 0 |
| Legendary.SixDigitColourIsOpaque | mapnik_legendary/mapnik_legendary.py:40-44 | a six-digit colour is read with alpha 255 |
| Legendary.TransparentBackground | mapnik_legendary/mapnik_legendary.py:45-49 | on a transparent background an image counts as empty exactly when every pixel is transparent |
| Legendary.OpaqueBackgroundHidesOpaquePixels | mapnik_legendary/mapnik_legendary.py:45-49 | on an opaque background every fully opaque image counts as background only, whatever it shows |
| Legendary.TransparentSetting | mapnik_legendary/mapnik_legendary.py:27-50 | with the background "transparent", an existing image counts as empty exactly when every pixel is transparent |
| Legendary.OpaqueSetting | mapnik_legendary/mapnik_legendary.py:27-50 | with a six-digit background colour, every fully opaque image counts as empty, whatever it shows |
| Legendary.ChooseZoom | mapnik_legendary/mapnik_legendary.py:79-81 | the command-line zoom when given, else the feature's `zoom`, else 17 |
| Legendary.FileId | mapnik_legendary/mapnik_legendary.py:95-98 | the file id holds only characters `clean_name` keeps |
| Legendary.FileIdFallback | mapnik_legendary/mapnik_legendary.py:95-98 | an empty name gives `legend-<idx>` untouched; any other name gives its cleaned form, so a clean name is its own id |
| Legendary.CandidateName | mapnik_legendary/mapnik_legendary.py:99-103 | `<id>-<zoom>.png` for the first candidate and `<id>-<zoom>-<i>.png` after it; Legendary.CandidateInjective and CandidateDistinct state that different suffixes give different names |
| Legendary.CandidateInjective | mapnik_legendary/mapnik_legendary.py:99-103 | two candidate paths are equal only for equal suffix numbers |
| Legendary.CandidateDistinct | mapnik_legendary/mapnik_legendary.py:99-103 | different suffix numbers give different candidate paths |
| Legendary.CandidatesMembers | mapnik_legendary/mapnik_legendary.py:99-103 | candidate k is among the first n candidates exactly when k < n |
| Legendary.PickFileName | mapnik_legendary/mapnik_legendary.py:99-103 | with overwrite, the base name `<fid>-<z>.png`; otherwise the first candidate that is not an existing file, every earlier candidate being an existing file |
| Legendary.MissingAttribute | mapnik_legendary/mapnik_legendary.py:107-108 | the key matched by `^CSV Plugin: no attribute '([^']+)'`, or none; Legendary.MissingAttributeFinds and MissingAttributeSound state both directions |
| Legendary.MissingAttributeFinds | mapnik_legendary/mapnik_legendary.py:107-108 | a message made of the CSV plugin prefix, a non-empty quote-free key and a quote yields that key |
| Legendary.MissingAttributeSound | mapnik_legendary/mapnik_legendary.py:107-108 | a key is found only in such a message: it is non-empty and quote-free, and the message starts with the prefix, the key and a quote |
| Legendary.ClassifyRenderError | mapnik_legendary/mapnik_legendary.py:104-113 | a missing-attribute message becomes a MapnikLegendaryError naming the key, the feature and the zoom; any other renderer error is re-raised unchanged |
| HtmlWriters.HtmlWriter.constructor | mapnik_legendary/html_writer.py:7-16 | a new writer has no entries and the given image width |
| HtmlWriters.HtmlWriter.Append | mapnik_legendary/html_writer.py:18-20 | the entry goes last, earlier entries are unchanged, and the answer is always true |
| HtmlWriters.AppendTwiceKeepsBoth | mapnik_legendary/html_writer.py:18-20 | no deduplication: an entry appended twice to a new writer is stored twice |
| DocWriters.DocWriter.constructor | mapnik_legendary/doc_writer.py:6-15 | a new writer has no rows and the given image width |
| DocWriters.DocWriter.Append | mapnik_legendary/doc_writer.py:17-18 | the (image, description, zoom) triple goes last and earlier rows are unchanged, so the list grows by exactly one |
| DocWriters.AppendInOrder | mapnik_legendary/doc_writer.py:17-18 | appending a sequence of rows to a new writer stores exactly those rows, in order, equal rows included |

## Left out

- Mapnik is not part of this model: loading the map, the projection, zoom_to_box, data
  sources and render_to_file. The projected world width is a parameter, and a renderer
  failure is its message text.
- PIL is not part of this model: opening, converting to RGBA and reading pixels.
  Images are given grids of RGBA pixels, and a path missing from the file map stands
  for a file that cannot be opened. This is a modelling choice for the comparison in
  legend_entry.py:49: the renderer writes `png256` (mapnik_legendary.py:105), so
  `getpixel` there returns palette indices or tuples that depend on the image mode, and
  two images equal as RGBA could differ as raw pixel values. The background scan
  converts to RGBA first (mapnik_legendary.py:42-43), so there the grids are exact.
- Geometry.Synthesize: the code computes the box in binary floating point; the model
  uses exact reals. Rounding is not modelled, nor are two exceptions the floats raise:
  at zoom 1016 and above `2**zoom * 256` is too large for `float` and the division in
  geometry.py:9 raises OverflowError; at zoom -1075 and below `2**zoom` rounds to 0.0
  and the same division raises ZeroDivisionError. The model returns Ok with the exact
  box for every zoom.
- Entries.NewEntry: property values are text (`map<string, string>`). The code stores
  whatever the YAML holds (numbers, lists, nested mappings), and compares them with
  Python equality in legend_entry.py:35.
- Legendary.ParseColour models `ImageColor.getcolor` only on the text it receives here:
  `#` and eight characters. Its ValueError carries the colour text, not PIL's message.
- Jinja templating (`write`, `to_html`), YAML loading, directory creation, file writes
  and logging are I/O and are not modelled. The writers keep the template as text.
- Python's float-to-text formatting in the WKT strings, and the byte-level quoting of
  the `csv` module, are not modelled. The geometry is kept as a shape value, and the
  CSV data source as its header and row.
- Geometry.Synthesize: the polygon-with-hole branch always raises its TypeError before
  any shape exists. Its rings are therefore not modelled, including the closing vertex
  of the outer ring, which uses `0.7 * max_y` as its x coordinate (geometry.py:29).
- json_writer.py and the command-line script mapnik-legendary.py are not part of this
  model.
- generate_legend as a whole is not modelled, only the decisions named in the table.
  Its loop over the features also does I/O: YAML, rendering and file checks. The
  `if not part` branch (mapnik_legendary.py:87-89) can never be taken, because a part
  object is always truthy.
- Call sites that do not match their callees are modelled by the callee's own signature:
  - Feature builds its parts without the `name` argument that Part requires
    (feature.py:11,13 against part.py:21). The model passes the feature's name.
  - `DocWriter()` and `docs.append(...)` in mapnik_legendary.py:73,116 do not match
    the arities at doc_writer.py:6,17. The model uses doc_writer.py's signatures.
- Styles.LayerStyles.PrepareLayer: on the empty-styles path the code calls a bare
  `logger`, which is only a class attribute, so Python would raise NameError
  (layer_styles.py:32). The model returns the None that the code evidently intends.
- Parts.MergeTags: a missing `extra_tags` is not modelled. Extra tags are always a
  list of keys. The unused `t`/`et` normalisation in part.py:11-16 has no effect, so a
  missing `tags` reaches `update(None)` and is the TypeError modelled.
- Parts.PartValueLaw, Features.FeatureValue, Legendary.ChooseZoom: a YAML key that is
  present with a null value is modelled as an absent key. The code treats the two
  differently:
  - `layer: null` gives the layer list `[None]` (part.py:25-26).
  - `description: null` gives None, not the upper-cased name (feature.py:7).
  - `name: null` raises AttributeError from `None.upper()`, which runs even when a
    description is given (feature.py:7).
  - `layers: null` stores None without an error (part.py:28), and fails only later at
    `for layer_name in part.layers` (mapnik_legendary.py:90). The model gives the
    missing-layers error.
  - `parts: null` reaches `for part in None`, a TypeError (feature.py:10). The model
    builds the feature's single part instead.
  - `zoom: null` reaches `2 ** None`, a TypeError (mapnik_legendary.py:81, then
    geometry.py:7).
- Legendary.CleanName: only ASCII `\w` and `\s` are modelled. Python's Unicode word
  and whitespace classes also keep non-ASCII letters, digits and spaces.
- Features.FeatureValue: the upper-casing of the default description covers ASCII
  letters only. Python's `str.upper` also maps other letters, and can change the
  length of the text.
- Entries.LegendEntry is a value. Nothing in the modelled code changes an entry after
  construction. Nothing here widens an entry's zoom range or merges adjacent entries,
  because the code has no such step.

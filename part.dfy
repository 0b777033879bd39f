/** A part of a legend item: merged tags, a synthetic geometry and the layers that draw it. */
module Parts {
  import opened Errors
  import opened Dicts
  import opened Geometry

  /** A tag value: YAML null, a text value, or the geometry written into the `wkt` column. */
  datatype TagValue = Null | Text(s: string) | Wkt(shape: Shape)

  type Tags = Dict<string, TagValue>

  /** The keys of a part (or feature) definition that a part reads; None = key absent. */
  datatype PartSpec = PartSpec(
    tags: Option<Tags>,
    kind: Option<string>,
    layer: Option<string>,
    layers: Option<seq<string>>)

  /** A YAML mapping never repeats a key. */
  predicate WellFormed(h: PartSpec) {
    h.tags.Some? ==> h.tags.value.Valid()
  }

  /** The message of the TypeError that dict.update(None) raises. */
  const NotIterableMessage := "'NoneType' object is not iterable"

  /** Part.merge_tags: every extra tag key maps to None, then the part's own tags are
      written over them. tags = None reaches result.update(None), a TypeError. */
  function MergeTags(tags: Option<Tags>, extraTags: seq<string>): (r: Result<Tags>)
    requires tags.Some? ==> tags.value.Valid()
    ensures r.Ok? <==> tags.Some?
    ensures r.Ok? ==> r.value.Valid()
  {
    if tags.None? then Err(TypeError(NotIterableMessage))
    else Ok(Update(FromKeys(extraTags, Null), tags.value))
  }

  /** The merged key set is extra_tags together with the given keys; a given key keeps its
      value, an extra key that was not given maps to None. */
  lemma MergeTagsValues(tags: Tags, extraTags: seq<string>)
    requires tags.Valid()
    ensures var r := MergeTags(Some(tags), extraTags).value;
            && (forall k :: k in r.vals <==> k in extraTags || k in tags.vals)
            && (forall k :: k in tags.vals ==> r.vals[k] == tags.vals[k])
            && (forall k :: k in extraTags && k !in tags.vals ==> r.vals[k] == Null)
  {
    FromKeysLaw(extraTags, Null);
    UpdateKeysLaw(FromKeys(extraTags, Null), tags.keys, tags.vals);
  }

  /** Key order: extra_tags (first occurrences) then the given keys not among them, in order. */
  lemma MergeTagsOrder(tags: Tags, extraTags: seq<string>)
    requires tags.Valid()
    ensures MergeTags(Some(tags), extraTags).value.keys == Dedup(extraTags) + Absent(extraTags, tags.keys)
  {
    var base := FromKeys(extraTags, Null);
    FromKeysLaw(extraTags, Null);
    UpdateKeysLaw(base, tags.keys, tags.vals);
    assert forall k :: k in base.keys <==> k in extraTags by {
      forall k ensures k in base.keys <==> k in extraTags {
        assert k in base.keys <==> k in base.vals;
      }
    }
    AbsentSameMembers(base.keys, extraTags, tags.keys);
  }

  function MissingLayersMessage(name: string): string {
    "Key \"layers\" or \"layer\" missing in specification of feature/part " + name
  }

  /** The layers of a part: `layer` wins as a one-element list, else `layers` verbatim. */
  function ChooseLayers(h: PartSpec, name: string): (r: Result<seq<string>>)
    ensures h.layer.Some? ==> r == Ok([h.layer.value])
    ensures h.layer.None? && h.layers.Some? ==> r == Ok(h.layers.value)
    ensures h.layer.None? && h.layers.None? ==> r == Err(LegendaryError(MissingLayersMessage(name)))
  {
    if h.layer.Some? then Ok([h.layer.value])
    else if h.layers.Some? then Ok(h.layers.value)
    else Err(LegendaryError(MissingLayersMessage(name)))
  }

  /** The state of a constructed part. */
  datatype PartData = PartData(tags: Tags, geom: Geometry, layers: seq<string>)

  /** Part.__init__ as a value: tags first, then the geometry, then the layers; the first
      step that raises decides the error. */
  function PartValue(h: PartSpec, zoom: int, m: MapFrame, extraTags: seq<string>, name: string): Result<PartData>
    requires WellFormed(h)
  {
    match MergeTags(h.tags, extraTags)
    case Err(e) => Err(e)
    case Ok(tags) =>
      match Synthesize(h.kind, zoom, m)
      case Err(e) => Err(e)
      case Ok(geom) =>
        match ChooseLayers(h, name)
        case Err(e) => Err(e)
        case Ok(layers) => Ok(PartData(tags, geom, layers))
  }

  /** When a part builds, and which exception each missing piece raises. Kept apart from
      PartValue so that proofs about features see only the cases they need. */
  lemma PartValueLaw(h: PartSpec, zoom: int, m: MapFrame, extraTags: seq<string>, name: string)
    requires WellFormed(h)
    ensures PartValue(h, zoom, m, extraTags, name).Ok? <==> h.tags.Some? && h.kind != Some(PolygonWithHole) && (h.layer.Some? || h.layers.Some?)
    ensures PartValue(h, zoom, m, extraTags, name).Ok? ==>
              && PartValue(h, zoom, m, extraTags, name).value.tags == MergeTags(h.tags, extraTags).value
              && PartValue(h, zoom, m, extraTags, name).value.geom == Synthesize(h.kind, zoom, m).value
              && PartValue(h, zoom, m, extraTags, name).value.layers == ChooseLayers(h, name).value
              && PartValue(h, zoom, m, extraTags, name).value.tags.Valid()
    ensures h.tags.None? ==> PartValue(h, zoom, m, extraTags, name) == Err(TypeError(NotIterableMessage))
    ensures h.tags.Some? && h.kind == Some(PolygonWithHole) ==> PartValue(h, zoom, m, extraTags, name) == Err(Synthesize(h.kind, zoom, m).error)
    ensures h.tags.Some? && h.kind != Some(PolygonWithHole) && h.layer.None? && h.layers.None?
            ==> PartValue(h, zoom, m, extraTags, name) == Err(LegendaryError(MissingLayersMessage(name)))
  {
  }

  /** One CSV record for the renderer's inline data source: a header row of tag keys and
      one data row holding the values in the same order. */
  datatype CsvRecord = CsvRecord(header: seq<string>, row: seq<TagValue>)

  function Record(tags: Tags): (c: CsvRecord)
    requires tags.Valid()
    ensures c.header == tags.keys && |c.row| == |c.header|
    ensures forall i :: 0 <= i < |c.row| ==> c.header[i] in tags.vals && c.row[i] == tags.vals[c.header[i]]
  {
    CsvRecord(tags.keys, seq(|tags.keys|, i requires 0 <= i < |tags.keys| => tags.vals[tags.keys[i]]))
  }

  /** The tags after self.tags["wkt"] = geometry. */
  function WithWkt(tags: Tags, geom: Geometry): (r: Tags)
    requires tags.Valid()
    ensures r.Valid()
  {
    Set(tags, "wkt", Wkt(geom.shape))
  }

  /** The record written after adding `wkt`: a new `wkt` column goes last, an existing one
      keeps its place, and its cell holds the geometry; every other column is unchanged. */
  lemma WktColumn(tags: Tags, geom: Geometry)
    requires tags.Valid()
    ensures var c := Record(WithWkt(tags, geom));
            && c.header == (if "wkt" in tags.keys then tags.keys else tags.keys + ["wkt"])
            && (forall i :: 0 <= i < |c.header| && c.header[i] == "wkt" ==> c.row[i] == Wkt(geom.shape))
            && (forall i :: 0 <= i < |c.header| && c.header[i] != "wkt" ==> c.row[i] == tags.vals[c.header[i]])
  {
  }

  /** A second to_csv changes no tag and writes the same record. */
  lemma ToCsvIdempotent(tags: Tags, geom: Geometry)
    requires tags.Valid()
    ensures WithWkt(WithWkt(tags, geom), geom) == WithWkt(tags, geom)
    ensures Record(WithWkt(WithWkt(tags, geom), geom)) == Record(WithWkt(tags, geom))
  {
    SetSame(WithWkt(tags, geom), "wkt", Wkt(geom.shape));
  }

  class Part {
    var tags: Tags
    const geom: Geometry
    const layers: seq<string>

    ghost predicate Valid()
      reads this
    {
      tags.Valid()
    }

    function Data(): PartData
      reads this
    {
      PartData(tags, geom, layers)
    }

    constructor (d: PartData)
      requires d.tags.Valid()
      ensures Valid() && Data() == d
    {
      tags := d.tags;
      geom := d.geom;
      layers := d.layers;
    }

    /** Part.to_csv: adds `wkt` to the part's own tags, then writes them as one record. */
    method ToCsv() returns (csv: CsvRecord)
      requires Valid()
      modifies this
      ensures Valid()
      ensures tags == WithWkt(old(tags), geom)
      ensures csv == Record(tags)
    {
      tags := Set(tags, "wkt", Wkt(geom.shape));
      csv := Record(tags);
    }
  }

  /** Part(h, zoom, m, extra_tags, name): a fresh part, or the exception the constructor raises. */
  method Build(h: PartSpec, zoom: int, m: MapFrame, extraTags: seq<string>, name: string) returns (r: Result<Part>)
    requires WellFormed(h)
    ensures r.Err? <==> PartValue(h, zoom, m, extraTags, name).Err?
    ensures r.Err? ==> r.error == PartValue(h, zoom, m, extraTags, name).error
    ensures r.Ok? ==> fresh(r.value) && r.value.Valid() && r.value.Data() == PartValue(h, zoom, m, extraTags, name).value
  {
    var v := PartValue(h, zoom, m, extraTags, name);
    PartValueLaw(h, zoom, m, extraTags, name);
    if v.Err? {
      return Err(v.error);
    }
    var p := new Part(v.value);
    return Ok(p);
  }
}

/** A legend item: a name, a description and the parts drawn for it at one zoom level. */
module Features {
  import opened Errors
  import opened Strings
  import opened Geometry
  import opened Parts

  /** The keys of a feature definition the feature reads; `own` holds the keys a part
      reads, used when the definition has no `parts` list. */
  datatype FeatureSpec = FeatureSpec(
    name: Option<string>,
    description: Option<string>,
    parts: Option<seq<PartSpec>>,
    own: PartSpec,
    zoom: Option<int>)

  predicate SpecWellFormed(f: FeatureSpec) {
    && Parts.WellFormed(f.own)
    && (f.parts.Some? ==> forall i :: 0 <= i < |f.parts.value| ==> Parts.WellFormed(f.parts.value[i]))
  }

  /** The definitions the parts are built from: each element of `parts`, else the feature itself. */
  function PartSpecs(f: FeatureSpec): (specs: seq<PartSpec>)
    requires SpecWellFormed(f)
    ensures forall i :: 0 <= i < |specs| ==> Parts.WellFormed(specs[i])
  {
    if f.parts.Some? then f.parts.value else [f.own]
  }

  /** The parts, built in list order; the first part that raises ends the construction. */
  function BuildParts(specs: seq<PartSpec>, zoom: int, m: MapFrame, extraTags: seq<string>, name: string): Result<seq<PartData>>
    requires forall i :: 0 <= i < |specs| ==> Parts.WellFormed(specs[i])
  {
    if specs == [] then Ok([])
    else
      match PartValue(specs[0], zoom, m, extraTags, name)
      case Err(e) => Err(e)
      case Ok(p) =>
        match BuildParts(specs[1..], zoom, m, extraTags, name)
        case Err(e) => Err(e)
        case Ok(ps) => Ok([p] + ps)
  }

  /** When every definition builds: one part per definition, in order, each built with the
      same zoom, extra tags and name. */
  lemma {:induction false} BuildPartsAllBuild(specs: seq<PartSpec>, zoom: int, m: MapFrame, extraTags: seq<string>, name: string)
    requires forall i :: 0 <= i < |specs| ==> Parts.WellFormed(specs[i])
    requires forall i :: 0 <= i < |specs| ==> PartValue(specs[i], zoom, m, extraTags, name).Ok?
    ensures BuildParts(specs, zoom, m, extraTags, name).Ok?
    ensures |BuildParts(specs, zoom, m, extraTags, name).value| == |specs|
    ensures forall i :: 0 <= i < |specs| ==>
              BuildParts(specs, zoom, m, extraTags, name).value[i] == PartValue(specs[i], zoom, m, extraTags, name).value
  {
    if specs != [] {
      var tail := specs[1..];
      assert forall i :: 0 <= i < |tail| ==> PartValue(tail[i], zoom, m, extraTags, name).Ok? by {
        forall i | 0 <= i < |tail| ensures PartValue(tail[i], zoom, m, extraTags, name).Ok? {
          assert tail[i] == specs[i + 1];
        }
      }
      BuildPartsAllBuild(tail, zoom, m, extraTags, name);
      assert forall i :: 1 <= i < |specs| ==> specs[i] == tail[i - 1];
    }
  }

  /** Otherwise the error is the one of the first definition that fails. */
  lemma {:induction false} BuildPartsFirstError(specs: seq<PartSpec>, zoom: int, m: MapFrame, extraTags: seq<string>, name: string, i: nat)
    requires forall k :: 0 <= k < |specs| ==> Parts.WellFormed(specs[k])
    requires i < |specs| && PartValue(specs[i], zoom, m, extraTags, name).Err?
    requires forall j :: 0 <= j < i ==> PartValue(specs[j], zoom, m, extraTags, name).Ok?
    ensures BuildParts(specs, zoom, m, extraTags, name) == Err(PartValue(specs[i], zoom, m, extraTags, name).error)
  {
    if i > 0 {
      var tail := specs[1..];
      assert tail[i - 1] == specs[i];
      assert forall j :: 0 <= j < i - 1 ==> PartValue(tail[j], zoom, m, extraTags, name).Ok? by {
        forall j | 0 <= j < i - 1 ensures PartValue(tail[j], zoom, m, extraTags, name).Ok? {
          assert tail[j] == specs[j + 1];
        }
      }
      BuildPartsFirstError(tail, zoom, m, extraTags, name, i - 1);
    }
  }

  /** One part per definition, in order, all built with the same zoom, extra tags and name;
      otherwise the error of the first definition that fails. */
  lemma BuildPartsLaw(specs: seq<PartSpec>, zoom: int, m: MapFrame, extraTags: seq<string>, name: string)
    requires forall i :: 0 <= i < |specs| ==> Parts.WellFormed(specs[i])
    ensures (forall i :: 0 <= i < |specs| ==> PartValue(specs[i], zoom, m, extraTags, name).Ok?) ==>
              && BuildParts(specs, zoom, m, extraTags, name).Ok?
              && |BuildParts(specs, zoom, m, extraTags, name).value| == |specs|
              && forall i :: 0 <= i < |specs| ==>
                   BuildParts(specs, zoom, m, extraTags, name).value[i] == PartValue(specs[i], zoom, m, extraTags, name).value
    ensures forall i :: 0 <= i < |specs| && PartValue(specs[i], zoom, m, extraTags, name).Err? &&
                        (forall j :: 0 <= j < i ==> PartValue(specs[j], zoom, m, extraTags, name).Ok?) ==>
              BuildParts(specs, zoom, m, extraTags, name) == Err(PartValue(specs[i], zoom, m, extraTags, name).error)
  {
    if forall i :: 0 <= i < |specs| ==> PartValue(specs[i], zoom, m, extraTags, name).Ok? {
      BuildPartsAllBuild(specs, zoom, m, extraTags, name);
    }
    forall i | 0 <= i < |specs| && PartValue(specs[i], zoom, m, extraTags, name).Err? &&
               (forall j :: 0 <= j < i ==> PartValue(specs[j], zoom, m, extraTags, name).Ok?)
      ensures BuildParts(specs, zoom, m, extraTags, name) == Err(PartValue(specs[i], zoom, m, extraTags, name).error)
    {
      BuildPartsFirstError(specs, zoom, m, extraTags, name, i);
    }
  }

  lemma BuildPartsAllOk(specs: seq<PartSpec>, zoom: int, m: MapFrame, extraTags: seq<string>, name: string, built: seq<PartData>)
    requires forall k :: 0 <= k < |specs| ==> Parts.WellFormed(specs[k])
    requires |built| == |specs|
    requires forall j :: 0 <= j < |specs| ==> PartValue(specs[j], zoom, m, extraTags, name) == Ok(built[j])
    ensures BuildParts(specs, zoom, m, extraTags, name) == Ok(built)
  {
    assert forall j :: 0 <= j < |specs| ==> PartValue(specs[j], zoom, m, extraTags, name).Ok?;
    BuildPartsAllBuild(specs, zoom, m, extraTags, name);
    var b := BuildParts(specs, zoom, m, extraTags, name);
    assert b.Ok? && |b.value| == |built|;
    assert forall j :: 0 <= j < |built| ==> b.value[j] == built[j];
    assert b.value == built;
  }

  /** The state of a constructed feature. */
  datatype FeatureData = FeatureData(name: string, description: string, parts: seq<PartData>)

  /** Feature.__init__ as a value. The part constructor is given the feature's name. */
  function FeatureValue(f: FeatureSpec, zoom: int, m: MapFrame, extraTags: seq<string>): (r: Result<FeatureData>)
    requires SpecWellFormed(f)
    ensures f.name.None? ==> r == Err(KeyError("name"))
    ensures r.Ok? ==> f.name == Some(r.value.name)
    ensures r.Ok? ==> r.value.description == if f.description.Some? then f.description.value else Upper(r.value.name)
  {
    if f.name.None? then Err(KeyError("name"))
    else
      var name := f.name.value;
      var description := if f.description.Some? then f.description.value else Upper(name);
      match BuildParts(PartSpecs(f), zoom, m, extraTags, name)
      case Err(e) => Err(e)
      case Ok(parts) => Ok(FeatureData(name, description, parts))
  }

  /** Without a `parts` list a feature has exactly one part, built from its own definition. */
  lemma SinglePart(f: FeatureSpec, zoom: int, m: MapFrame, extraTags: seq<string>)
    requires SpecWellFormed(f) && f.parts.None? && f.name.Some?
    ensures FeatureValue(f, zoom, m, extraTags).Ok? <==> PartValue(f.own, zoom, m, extraTags, f.name.value).Ok?
    ensures FeatureValue(f, zoom, m, extraTags).Ok? ==>
              FeatureValue(f, zoom, m, extraTags).value.parts == [PartValue(f.own, zoom, m, extraTags, f.name.value).value]
  {
    BuildPartsLaw([f.own], zoom, m, extraTags, f.name.value);
  }

  /** With a `parts` list a feature has one part per element, in list order. */
  lemma PartPerElement(f: FeatureSpec, zoom: int, m: MapFrame, extraTags: seq<string>)
    requires SpecWellFormed(f) && f.parts.Some? && f.name.Some?
    requires forall i :: 0 <= i < |f.parts.value| ==> PartValue(f.parts.value[i], zoom, m, extraTags, f.name.value).Ok?
    ensures FeatureValue(f, zoom, m, extraTags).Ok?
    ensures |FeatureValue(f, zoom, m, extraTags).value.parts| == |f.parts.value|
    ensures forall i :: 0 <= i < |f.parts.value| ==>
              FeatureValue(f, zoom, m, extraTags).value.parts[i] == PartValue(f.parts.value[i], zoom, m, extraTags, f.name.value).value
  {
    BuildPartsLaw(f.parts.value, zoom, m, extraTags, f.name.value);
  }

  /** With a `parts` list, the first element that fails decides the feature's error. */
  lemma FeatureFirstError(f: FeatureSpec, zoom: int, m: MapFrame, extraTags: seq<string>, i: nat)
    requires SpecWellFormed(f) && f.parts.Some? && f.name.Some? && i < |f.parts.value|
    requires PartValue(f.parts.value[i], zoom, m, extraTags, f.name.value).Err?
    requires forall j :: 0 <= j < i ==> PartValue(f.parts.value[j], zoom, m, extraTags, f.name.value).Ok?
    ensures FeatureValue(f, zoom, m, extraTags) == Err(PartValue(f.parts.value[i], zoom, m, extraTags, f.name.value).error)
  {
    BuildPartsFirstError(f.parts.value, zoom, m, extraTags, f.name.value, i);
  }

  /** Feature.envelope: the envelope of the first part's geometry; no parts is an IndexError. */
  function FeatureEnvelope(d: FeatureData): (r: Result<Envelope>)
    ensures r.Ok? <==> |d.parts| > 0
    ensures r.Ok? ==> r.value == EnvelopeOf(d.parts[0].geom)
  {
    if |d.parts| == 0 then Err(IndexError("list index out of range")) else Ok(EnvelopeOf(d.parts[0].geom))
  }

  /** Later parts never affect the envelope. */
  lemma EnvelopeFirstPartOnly(d: FeatureData, rest: seq<PartData>)
    requires |d.parts| > 0
    ensures FeatureEnvelope(FeatureData(d.name, d.description, [d.parts[0]] + rest)) == FeatureEnvelope(d)
  {
  }

  /** A built feature is framed by the box of its first definition's geometry. */
  lemma EnvelopeOfBuiltFeature(f: FeatureSpec, zoom: int, m: MapFrame, extraTags: seq<string>)
    requires SpecWellFormed(f) && FeatureValue(f, zoom, m, extraTags).Ok?
    ensures |PartSpecs(f)| > 0 <==> FeatureEnvelope(FeatureValue(f, zoom, m, extraTags).value).Ok?
    ensures |PartSpecs(f)| > 0 ==>
              FeatureEnvelope(FeatureValue(f, zoom, m, extraTags).value).value
              == EnvelopeOf(Synthesize(PartSpecs(f)[0].kind, zoom, m).value)
  {
    var specs := PartSpecs(f);
    var name := f.name.value;
    BuildPartsLaw(specs, zoom, m, extraTags, name);
    if exists i :: 0 <= i < |specs| && PartValue(specs[i], zoom, m, extraTags, name).Err? {
      var i := FirstFailure(specs, zoom, m, extraTags, name);
      assert false;
    }
  }

  /** The position of the first definition whose part fails, when one does. */
  lemma FirstFailure(specs: seq<PartSpec>, zoom: int, m: MapFrame, extraTags: seq<string>, name: string) returns (i: nat)
    requires forall k :: 0 <= k < |specs| ==> Parts.WellFormed(specs[k])
    requires exists k :: 0 <= k < |specs| && PartValue(specs[k], zoom, m, extraTags, name).Err?
    ensures i < |specs| && PartValue(specs[i], zoom, m, extraTags, name).Err?
    ensures forall j :: 0 <= j < i ==> PartValue(specs[j], zoom, m, extraTags, name).Ok?
  {
    i := 0;
    while PartValue(specs[i], zoom, m, extraTags, name).Ok?
      invariant i < |specs|
      invariant forall j :: 0 <= j < i ==> PartValue(specs[j], zoom, m, extraTags, name).Ok?
      invariant exists k :: i <= k < |specs| && PartValue(specs[k], zoom, m, extraTags, name).Err?
      decreases |specs| - i
    {
      i := i + 1;
    }
  }

  function PartsData(ps: seq<Part>): (r: seq<PartData>)
    reads ps
    ensures |r| == |ps| && forall i :: 0 <= i < |ps| ==> r[i] == ps[i].Data()
  {
    if ps == [] then [] else [ps[0].Data()] + PartsData(ps[1..])
  }

  class Feature {
    const name: string
    const description: string
    const parts: seq<Part>

    ghost predicate Valid()
      reads this, parts
    {
      forall i :: 0 <= i < |parts| ==> parts[i].Valid()
    }

    ghost function Data(): FeatureData
      reads this, parts
    {
      FeatureData(name, description, PartsData(parts))
    }

    constructor (name: string, description: string, parts: seq<Part>)
      ensures this.name == name && this.description == description && this.parts == parts
    {
      this.name := name;
      this.description := description;
      this.parts := parts;
    }

    /** Feature.envelope. */
    function EnvelopeValue(): (r: Result<Envelope>)
      reads this, parts
      ensures r == FeatureEnvelope(Data())
    {
      if |parts| == 0 then Err(IndexError("list index out of range")) else Ok(EnvelopeOf(parts[0].geom))
    }
  }

  /** The loop of Feature.__init__: one fresh part per definition, appended in order. */
  method BuildPartList(specs: seq<PartSpec>, zoom: int, m: MapFrame, extraTags: seq<string>, name: string)
    returns (r: Result<seq<Part>>)
    requires forall k :: 0 <= k < |specs| ==> Parts.WellFormed(specs[k])
    ensures r.Err? <==> BuildParts(specs, zoom, m, extraTags, name).Err?
    ensures r.Err? ==> r.error == BuildParts(specs, zoom, m, extraTags, name).error
    ensures r.Ok? ==> PartsData(r.value) == BuildParts(specs, zoom, m, extraTags, name).value
    ensures r.Ok? ==> forall j :: 0 <= j < |r.value| ==> fresh(r.value[j]) && r.value[j].Valid()
  {
    var parts: seq<Part> := [];
    ghost var built: seq<PartData> := [];
    var i := 0;
    while i < |specs|
      invariant 0 <= i <= |specs| && |parts| == i && |built| == i
      invariant forall j :: 0 <= j < i ==> PartValue(specs[j], zoom, m, extraTags, name) == Ok(built[j])
      invariant forall j :: 0 <= j < i ==> fresh(parts[j]) && parts[j].Valid() && parts[j].Data() == built[j]
    {
      var p := Parts.Build(specs[i], zoom, m, extraTags, name);
      if p.Err? {
        BuildPartsFirstError(specs, zoom, m, extraTags, name, i);
        return Err(p.error);
      }
      parts := parts + [p.value];
      built := built + [p.value.Data()];
      i := i + 1;
    }
    assert PartsData(parts) == built;
    BuildPartsAllOk(specs, zoom, m, extraTags, name, built);
    return Ok(parts);
  }

  /** Feature(feature, zoom, m, extra_tags): the feature, or the first exception raised. */
  method Build(f: FeatureSpec, zoom: int, m: MapFrame, extraTags: seq<string>) returns (r: Result<Feature>)
    requires SpecWellFormed(f)
    ensures r.Err? <==> FeatureValue(f, zoom, m, extraTags).Err?
    ensures r.Err? ==> r.error == FeatureValue(f, zoom, m, extraTags).error
    ensures r.Ok? ==> fresh(r.value) && r.value.Valid() && r.value.Data() == FeatureValue(f, zoom, m, extraTags).value
  {
    if f.name.None? {
      return Err(KeyError("name"));
    }
    var name := f.name.value;
    var description := if f.description.Some? then f.description.value else Upper(name);
    var parts := BuildPartList(PartSpecs(f), zoom, m, extraTags, name);
    if parts.Err? {
      return Err(parts.error);
    }
    var feature := new Feature(name, description, parts.value);
    return Ok(feature);
  }
}

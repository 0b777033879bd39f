/** The style names each map layer uses, captured once, and the render layers built from them. */
module Styles {
  import opened Errors
  import opened Parts

  /** A layer of the loaded map: its name and its style names in order. */
  datatype MapLayer = MapLayer(name: string, styles: seq<string>)

  /** A layer ready to render: a part's CSV record as inline data, drawn by the given styles. */
  datatype RenderLayer = RenderLayer(name: string, srs: string, datasource: CsvRecord, styles: seq<string>)

  /** The dict the constructor fills: each name to its layer's styles, a later layer replacing an earlier one. */
  function Snapshot(layers: seq<MapLayer>): map<string, seq<string>> {
    if layers == [] then map[]
    else Snapshot(layers[..|layers| - 1])[layers[|layers| - 1].name := layers[|layers| - 1].styles]
  }

  /** dict.get(name, []). */
  function Lookup(snapshot: map<string, seq<string>>, name: string): seq<string> {
    if name in snapshot then snapshot[name] else []
  }

  /** The snapshot has exactly the names some layer carries. */
  lemma {:induction false} SnapshotNames(layers: seq<MapLayer>, name: string)
    ensures name in Snapshot(layers) <==> exists i :: 0 <= i < |layers| && layers[i].name == name
  {
    if layers != [] {
      var init := layers[..|layers| - 1];
      SnapshotNames(init, name);
      if name in Snapshot(init) {
        var i :| 0 <= i < |init| && init[i].name == name;
        assert layers[i].name == name;
      }
      if exists i :: 0 <= i < |layers| && layers[i].name == name {
        var i :| 0 <= i < |layers| && layers[i].name == name;
        if i < |init| {
          assert init[i].name == name;
        }
      }
    }
  }

  /** A name has the styles of the last layer carrying it, in that layer's order. */
  lemma {:induction false} SnapshotLastWins(layers: seq<MapLayer>, i: nat)
    requires i < |layers|
    requires forall j :: i < j < |layers| ==> layers[j].name != layers[i].name
    ensures Lookup(Snapshot(layers), layers[i].name) == layers[i].styles
  {
    if i < |layers| - 1 {
      var init := layers[..|layers| - 1];
      assert init[i] == layers[i];
      SnapshotLastWins(init, i);
    }
  }

  /** get_styles gives [] for a name no layer carries. */
  lemma UnknownLayerHasNoStyles(layers: seq<MapLayer>, name: string)
    requires forall i :: 0 <= i < |layers| ==> layers[i].name != name
    ensures Lookup(Snapshot(layers), name) == []
  {
    SnapshotNames(layers, name);
  }

  class LayerStyles {
    const stylesByLayer: map<string, seq<string>>

    /** LayerStyles(layers): copies every layer's style list into the dict, in layer order. */
    constructor (layers: seq<MapLayer>)
      ensures stylesByLayer == Snapshot(layers)
    {
      var byLayer: map<string, seq<string>> := map[];
      var i := 0;
      while i < |layers|
        invariant 0 <= i <= |layers|
        invariant byLayer == Snapshot(layers[..i])
      {
        var styles: seq<string> := [];
        var k := 0;
        while k < |layers[i].styles|
          invariant 0 <= k <= |layers[i].styles|
          invariant styles == layers[i].styles[..k]
        {
          styles := styles + [layers[i].styles[k]];
          k := k + 1;
        }
        assert styles == layers[i].styles;
        assert layers[..i + 1][..i] == layers[..i];
        byLayer := byLayer[layers[i].name := styles];
        i := i + 1;
      }
      assert layers[..i] == layers;
      stylesByLayer := byLayer;
    }

    /** LayerStyles.get_styles: never fails, [] for an unknown layer. */
    function GetStyles(name: string): (styles: seq<string>)
      ensures name !in stylesByLayer ==> styles == []
      ensures name in stylesByLayer ==> styles == stylesByLayer[name]
    {
      Lookup(stylesByLayer, name)
    }

    /** LayerStyles.prepare_layer: the part's record is written first (so the part gains
        `wkt` on every path); no styles gives None, else a layer carrying the styles in order. */
    method PrepareLayer(name: string, srs: string, part: Part) returns (layer: Option<RenderLayer>)
      requires part.Valid()
      modifies part
      ensures part.Valid()
      ensures part.tags == WithWkt(old(part.tags), part.geom)
      ensures layer.None? <==> GetStyles(name) == []
      ensures layer.Some? ==> layer.value == RenderLayer(name, srs, Record(part.tags), GetStyles(name))
    {
      var datasource := part.ToCsv();
      var styles := GetStyles(name);
      if |styles| == 0 {
        return None;
      }
      var attached: seq<string> := [];
      var k := 0;
      while k < |styles|
        invariant 0 <= k <= |styles|
        invariant attached == styles[..k]
      {
        attached := attached + [styles[k]];
        k := k + 1;
      }
      assert styles[..k] == styles;
      return Some(RenderLayer(name, srs, datasource, attached));
    }
  }
}

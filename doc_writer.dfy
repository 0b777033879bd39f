/** The documentation table writer: (image, description, zoom) rows in append order. */
module DocWriters {

  datatype DocRow = DocRow(image: string, description: string, zoom: int)

  class DocWriter {
    var entries: seq<DocRow>
    var imageWidth: int
    const template: string

    /** DocWriter(width, template): no rows yet, images shown `width` pixels wide. */
    constructor (width: int, template: string)
      ensures entries == [] && imageWidth == width && this.template == template
    {
      entries := [];
      imageWidth := width;
      this.template := template;
    }

    /** DocWriter.append: the row goes last; nothing is merged or rejected. */
    method Append(image: string, description: string, zoom: int)
      modifies this
      ensures entries == old(entries) + [DocRow(image, description, zoom)]
      ensures imageWidth == old(imageWidth)
    {
      entries := entries + [DocRow(image, description, zoom)];
    }
  }

  /** Rows come out in append order, one per call, equal rows included. */
  method AppendInOrder(width: int, template: string, rows: seq<DocRow>) returns (stored: seq<DocRow>)
    ensures stored == rows
  {
    var writer := new DocWriter(width, template);
    var i := 0;
    while i < |rows|
      invariant 0 <= i <= |rows|
      invariant writer.entries == rows[..i]
    {
      writer.Append(rows[i].image, rows[i].description, rows[i].zoom);
      i := i + 1;
    }
    stored := writer.entries;
  }
}

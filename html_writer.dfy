/** The HTML legend writer: an ordered list of entries for the page template. */
module HtmlWriters {
  import opened Entries

  class HtmlWriter {
    var entries: seq<LegendEntry>
    var imageWidth: int
    const template: string

    /** HTMLWriter(width, template): no entries yet, images shown `width` pixels wide. */
    constructor (width: int, template: string)
      ensures entries == [] && imageWidth == width && this.template == template
    {
      entries := [];
      imageWidth := width;
      this.template := template;
    }

    /** HTMLWriter.append: stores the entry last and always accepts it. */
    method Append(entry: LegendEntry) returns (accepted: bool)
      modifies this
      ensures accepted
      ensures entries == old(entries) + [entry]
      ensures imageWidth == old(imageWidth)
    {
      entries := entries + [entry];
      accepted := true;
    }
  }

  /** No deduplication: an entry appended twice is stored twice, after what was there. */
  method AppendTwiceKeepsBoth(width: int, template: string, entry: LegendEntry) returns (stored: seq<LegendEntry>)
    ensures stored == [entry, entry]
  {
    var writer := new HtmlWriter(width, template);
    var first := writer.Append(entry);
    var second := writer.Append(entry);
    stored := writer.entries;
  }
}

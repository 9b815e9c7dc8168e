/**
 * The reportlab flowables the PDF writers append to a story, as values: a paragraph of
 * markup in a named style, a spacer (width and height in hundredths of a point, so that
 * inch fractions such as 0.08 inch stay exact), a page break, a table of cell texts, a
 * bulleted or numbered list of item paragraphs, and a group kept on one page.
 * Layout and rendering are not modelled.
 */
module Flowables {
  datatype Flowable =
    | Paragraph(text: string, style: string)
    | Spacer(width: nat, height: nat)
    | PageBreak
    | Table(rows: seq<seq<string>>)
    | ListFlowable(items: seq<string>, bulletType: string)
    | KeepTogether(contents: seq<Flowable>)

  /** One point and one inch, in hundredths of a point. */
  const Point: nat := 100
  const Inch: nat := 7200
}

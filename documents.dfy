/**
 * The two documents run_report assembles when generate_files is set: a PDF
 * (title, optional summary paragraph, one image per chart) and a slide deck
 * (one summary slide, then one slide per chart). Both list the charts in
 * the fixed order of Aggregates.ChartOrder, skipping the ones not drawn.
 * Fonts, sizes and positions are not modelled.
 */
module Documents {
  import opened Wrappers
  import opened Counting
  import opened Frames
  import opened Aggregates

  datatype PdfElement = Heading(text: string) | Paragraph(text: string) | Picture(path: string)

  datatype Slide = SummarySlide(title: string, body: Option<string>) | ChartSlide(picture: string)

  const PdfTitle: string := "Netflix Analysis Report"
  const DeckTitle: string := "Executive Summary"

  /** The keys of order that are in plots, in the order of order. */
  function ChartsInOrder(order: seq<string>, plots: map<string, string>): (ks: seq<string>)
    ensures forall k :: k in ks <==> k in order && k in plots
    ensures NoDup(order) ==> NoDup(ks)
  {
    if |order| == 0 then []
    else
      var init, last := order[..|order| - 1], order[|order| - 1];
      assert order == init + [last];
      ChartsInOrder(init, plots) + (if last in plots then [last] else [])
  }

  /** One picture per chart key, showing the file plot_files holds for it. */
  function Pictures(keys: seq<string>, plots: map<string, string>): seq<PdfElement>
    requires forall k :: k in keys ==> k in plots
  {
    seq(|keys|, i requires 0 <= i < |keys| => Picture(plots[keys[i]]))
  }

  function ChartSlides(keys: seq<string>, plots: map<string, string>): seq<Slide>
    requires forall k :: k in keys ==> k in plots
  {
    seq(|keys|, i requires 0 <= i < |keys| => ChartSlide(plots[keys[i]]))
  }

  /** The summary block: present only for a non-empty narrative. */
  function SummaryBody(summary: string): Option<string>
  {
    if summary != "" then Some(summary) else None
  }

  function PdfContents(summary: string, plots: map<string, string>): seq<PdfElement>
  {
    [Heading(PdfTitle)] + (if summary != "" then [Paragraph(summary)] else [])
    + Pictures(ChartsInOrder(ChartOrder, plots), plots)
  }

  function DeckContents(summary: string, plots: map<string, string>): seq<Slide>
  {
    [SummarySlide(DeckTitle, SummaryBody(summary))] + ChartSlides(ChartsInOrder(ChartOrder, plots), plots)
  }

  /** The PDF loop: title, the summary if any, then an image per drawn chart in the fixed order. */
  method BuildPdf(summary: string, plots: map<string, string>) returns (doc: seq<PdfElement>)
    ensures doc == PdfContents(summary, plots)
  {
    doc := [Heading(PdfTitle)];
    if summary != "" {
      doc := doc + [Paragraph(summary)];
    }
    var pictures := AddPictures(ChartOrder, plots);
    doc := doc + pictures;
  }

  /** The image loop of the PDF: one picture per key of order that was drawn. */
  method AddPictures(order: seq<string>, plots: map<string, string>) returns (pics: seq<PdfElement>)
    ensures pics == Pictures(ChartsInOrder(order, plots), plots)
  {
    pics := [];
    for i := 0 to |order|
      invariant pics == Pictures(ChartsInOrder(order[..i], plots), plots)
    {
      var key := order[i];
      ChartsInOrderStep(order, i, plots);
      if key in plots {
        PicturesAppend(ChartsInOrder(order[..i], plots), key, plots);
        pics := pics + [Picture(plots[key])];
      }
    }
    assert order[..|order|] == order;
  }

  /** The slide loop: the summary slide, then a slide per drawn chart in the fixed order. */
  method BuildDeck(summary: string, plots: map<string, string>) returns (deck: seq<Slide>)
    ensures deck == DeckContents(summary, plots)
  {
    deck := [SummarySlide(DeckTitle, if summary != "" then Some(summary) else None)];
    var slides := AddChartSlides(ChartOrder, plots);
    deck := deck + slides;
  }

  /** The chart-slide loop of the deck: one slide per key of order that was drawn. */
  method AddChartSlides(order: seq<string>, plots: map<string, string>) returns (slides: seq<Slide>)
    ensures slides == ChartSlides(ChartsInOrder(order, plots), plots)
  {
    slides := [];
    for i := 0 to |order|
      invariant slides == ChartSlides(ChartsInOrder(order[..i], plots), plots)
    {
      var key := order[i];
      ChartsInOrderStep(order, i, plots);
      if key in plots {
        SlidesAppend(ChartsInOrder(order[..i], plots), key, plots);
        slides := slides + [ChartSlide(plots[key])];
      }
    }
    assert order[..|order|] == order;
  }

  lemma ChartsInOrderStep(order: seq<string>, i: nat, plots: map<string, string>)
    requires i < |order|
    ensures ChartsInOrder(order[..i + 1], plots) ==
      ChartsInOrder(order[..i], plots) + (if order[i] in plots then [order[i]] else [])
  {
    assert order[..i + 1][..i] == order[..i];
  }

  lemma PicturesAppend(keys: seq<string>, k: string, plots: map<string, string>)
    requires forall j :: j in keys ==> j in plots
    requires k in plots
    ensures Pictures(keys + [k], plots) == Pictures(keys, plots) + [Picture(plots[k])]
  {
  }

  lemma SlidesAppend(keys: seq<string>, k: string, plots: map<string, string>)
    requires forall j :: j in keys ==> j in plots
    requires k in plots
    ensures ChartSlides(keys + [k], plots) == ChartSlides(keys, plots) + [ChartSlide(plots[k])]
  {
  }

  lemma ChartOrderNoDup()
    ensures NoDup(ChartOrder)
  {
  }

  /**
   * Charts keep the fixed order: a chart listed before another also comes
   * before it in ChartOrder.
   */
  lemma {:induction false} ChartsInOrderKeepsOrder(order: seq<string>, plots: map<string, string>)
    requires NoDup(order)
    ensures forall i, j :: 0 <= i < j < |ChartsInOrder(order, plots)| ==>
      IndexOf(order, ChartsInOrder(order, plots)[i]) < IndexOf(order, ChartsInOrder(order, plots)[j])
  {
    if |order| > 0 {
      var init, last := order[..|order| - 1], order[|order| - 1];
      assert order == init + [last];
      assert NoDup(init) && last !in init;
      ChartsInOrderKeepsOrder(init, plots);
      OrderExtends(init, last, ChartsInOrder(init, plots), ChartsInOrder(order, plots));
    }
  }

  lemma OrderExtends(init: seq<string>, last: string, ks0: seq<string>, ks: seq<string>)
    requires last !in init
    requires forall k :: k in ks0 ==> k in init
    requires forall i, j :: 0 <= i < j < |ks0| ==> IndexOf(init, ks0[i]) < IndexOf(init, ks0[j])
    requires ks == ks0 || ks == ks0 + [last]
    ensures forall i, j :: 0 <= i < j < |ks| ==> IndexOf(init + [last], ks[i]) < IndexOf(init + [last], ks[j])
  {
    var order := init + [last];
    forall k | k in init ensures IndexOf(order, k) == IndexOf(init, k) {
      IndexOfAppend(init, last, k);
    }
    IndexOfIs(order, last, |init|);
    forall i, j | 0 <= i < j < |ks| ensures IndexOf(order, ks[i]) < IndexOf(order, ks[j]) {
      assert ks[i] == ks0[i] && ks0[i] in ks0;
      if j < |ks0| {
        assert ks[j] == ks0[j] && ks0[j] in ks0;
      }
    }
  }

  /** Every drawn chart of ChartOrder appears exactly once. */
  lemma ChartCount(plots: map<string, string>)
    requires plots.Keys <= set k | k in ChartOrder
    ensures |ChartsInOrder(ChartOrder, plots)| == |plots|
  {
    var ks := ChartsInOrder(ChartOrder, plots);
    ChartOrderNoDup();
    NoDupCard(ks);
    assert Elems(ks) == plots.Keys;
  }

  /**
   * The deck has one slide more than there are drawn charts; its first slide
   * carries the narrative only when there is one.
   */
  lemma DeckShape(summary: string, plots: map<string, string>)
    requires plots.Keys <= set k | k in ChartOrder
    ensures |DeckContents(summary, plots)| == 1 + |plots|
    ensures DeckContents(summary, plots)[0] == SummarySlide(DeckTitle, if summary == "" then None else Some(summary))
    ensures forall i :: 1 <= i < |DeckContents(summary, plots)| ==> DeckContents(summary, plots)[i].ChartSlide?
  {
    ChartCount(plots);
  }

  /**
   * The PDF has a title, a summary paragraph exactly when the narrative is
   * non-empty, and one picture per drawn chart.
   */
  lemma PdfShape(summary: string, plots: map<string, string>)
    requires plots.Keys <= set k | k in ChartOrder
    ensures var doc := PdfContents(summary, plots);
      |doc| == 1 + (if summary == "" then 0 else 1) + |plots|
      && doc[0] == Heading(PdfTitle)
      && (summary != "" ==> doc[1] == Paragraph(summary))
      && forall i :: 0 <= i < |doc| ==> (doc[i].Paragraph? <==> summary != "" && i == 1)
  {
    ChartCount(plots);
  }
}

/** Text extraction from an uploaded PDF (`extract_text_from_pdf` in app.py).
    Decoding the PDF is PyPDF2's work and is not part of this model: the
    input is the sequence of strings that `page.extract_text()` returns, one
    per page, in page order. */
module PdfText {
  import opened PyStr
  import Prompt

  /** The pages' text, one page after another. */
  function PagesText(pages: seq<string>): string
  {
    if pages == [] then "" else PagesText(pages[..|pages| - 1]) + pages[|pages| - 1]
  }

  /** `extract_text_from_pdf`: starts from the empty string and appends
      each page's text in turn. */
  method ExtractTextFromPdf(pages: seq<string>) returns (text: string)
    ensures text == PagesText(pages)
  {
    text := "";
    for i := 0 to |pages|
      invariant text == PagesText(pages[..i])
    {
      assert pages[..i + 1][..i] == pages[..i];
      text := text + pages[i];
    }
    assert pages[..|pages|] == pages;
  }

  lemma {:induction false} PagesTextAppend(a: seq<string>, b: seq<string>)
    ensures PagesText(a + b) == PagesText(a) + PagesText(b)
    decreases |b|
  {
    if b == [] {
      assert a + b == a;
    } else {
      var b' := b[..|b| - 1];
      assert (a + b)[..|a + b| - 1] == a + b';
      assert (a + b)[|a + b| - 1] == b[|b| - 1];
      PagesTextAppend(a, b');
    }
  }

  /** Page `i` appears verbatim, right after the text of the pages before it. */
  lemma PageInPlace(pages: seq<string>, i: nat)
    requires i < |pages|
    ensures OccursAt(PagesText(pages), pages[i], |PagesText(pages[..i])|)
  {
    assert pages == pages[..i] + [pages[i]] + pages[i + 1..];
    PagesTextAppend(pages[..i] + [pages[i]], pages[i + 1..]);
    PagesTextAppend(pages[..i], [pages[i]]);
    assert [pages[i]][..0] == [];
    var text := PagesText(pages);
    var at := |PagesText(pages[..i])|;
    assert text[at..at + |pages[i]|] == pages[i];
  }

  /** The text is empty exactly when every page's text is: zero pages, or
      only empty pages, give the empty string rather than an error. */
  lemma {:induction false} PagesTextEmptyIff(pages: seq<string>)
    ensures PagesText(pages) == "" <==> forall i :: 0 <= i < |pages| ==> pages[i] == ""
  {
    if pages != [] {
      var init := pages[..|pages| - 1];
      PagesTextEmptyIff(init);
      if PagesText(pages) == "" {
        forall i | 0 <= i < |pages|
          ensures pages[i] == ""
        {
          if i < |pages| - 1 {
            assert pages[i] == init[i];
          }
        }
      }
    }
  }

  /** `analyze_text(extract_text_from_pdf(uploaded_file), organ_type)` up to
      the model call: the prompt that a PDF upload produces. */
  function UploadPrompt(pages: seq<string>, organType: string): (prompt: string)
    ensures OccursAt(prompt, PagesText(pages),
      |Prompt.ReportTemplate.head| + |organType| + |Prompt.ReportTemplate.middle|)
  {
    Prompt.AnalysisPrompt(PagesText(pages), organType)
  }

  /** Page `i` stands verbatim in any template filled with the pages' text,
      after the head, the domain name, the middle part and the text of the
      pages before it. */
  lemma PageInFilledTemplate(t: Prompt.Template, pages: seq<string>, organType: string, i: nat)
    requires i < |pages|
    ensures OccursAt(Prompt.Fill(t, organType, PagesText(pages)), pages[i],
      |t.head| + |organType| + |t.middle| + |PagesText(pages[..i])|)
  {
    PageInPlace(pages, i);
    Prompt.FillTextOccurs(t, organType, PagesText(pages), pages[i], |PagesText(pages[..i])|);
  }

  /** Page `i` stands verbatim in the upload's prompt, after the fixed head,
      the domain name, the outline and the text of the pages before it. */
  lemma PageInUploadPrompt(pages: seq<string>, organType: string, i: nat)
    requires i < |pages|
    ensures OccursAt(UploadPrompt(pages, organType), pages[i],
      |Prompt.ReportTemplate.head| + |organType| + |Prompt.ReportTemplate.middle| + |PagesText(pages[..i])|)
  {
    PageInFilledTemplate(Prompt.ReportTemplate, pages, organType, i);
  }

  /** A PDF with no extractable text still yields a prompt: the template
      with nothing where the report text goes. */
  lemma EmptyPdfStillPrompts(pages: seq<string>, organType: string)
    requires forall i :: 0 <= i < |pages| ==> pages[i] == ""
    ensures UploadPrompt(pages, organType) == Prompt.AnalysisPrompt("", organType)
  {
    assert PagesText(pages) == "" by {
      PagesTextEmptyIff(pages);
    }
  }
}

# MedBuddy report pipeline in Dafny

MedBuddy is a Streamlit dashboard. A user uploads a medical report (PDF) or a scan image and picks an analysis domain (`Brain` or `Heart`). The dashboard sends the content to a hosted generative model and shows the model's free-text analysis. It can also export that analysis as a PDF report. All of the app's logic sits in `app.py`, and most of it calls into Streamlit, the Gemini client, PyPDF2, PIL and reportlab.

This project models the parts of that pipeline that are deterministic text handling:

- **Report story assembly** (`create_pdf_report`, module `Report`). This builds the ordered list of reportlab flowables for the PDF: a title, a "Generated on" line and a 20-point spacer. Then it adds one paragraph and a 12-point spacer for each analysis section that is not blank. A section counts as a heading when it starts with `#`, `1.`, `2.`, `3.`, `4.` or `5.`. Paragraphs, spacers and paragraph styles are modelled as datatype values. The method `CreatePdfReport` builds the story in a loop, as the source does. It is proved equal to the specification function `Story`, and the properties below are lemmas about `Story`.
- **Python string semantics** (module `PyStr`). This covers `str.find`, `str.split(sep)`, `sep.join`, `str.strip()` (with Python's `str.isspace` character set) and `str.startswith(tuple)`. `Split` follows CPython's algorithm: cut at the leftmost separator, then continue. It is proved to be the one and only decomposition that joins back to the input, has no separator in its last piece, and cuts every other piece at the leftmost separator. So `"a\n\n\nb"` splits into `["a", "\nb"]`.
- **The text-report prompt** (`create_analysis_prompt`, module `Prompt`). This is a fixed template with two holes, the domain name and the extracted text. The template text is reproduced character for character, emoji included. The template is the value `ReportTemplate`, whose head, middle and tail are `PromptPrefix`, `PromptOutline` and `PromptSuffix`. Offsets are stated through its fields. The properties are proved once for any template, then applied to this one. The lemmas say where each input lands. They also prove that a prompt can be read back into its inputs, and that distinct inputs with domain names of equal length give distinct prompts. Both of the app's domains, `Brain` and `Heart`, have five letters.
- **PDF text accumulation** (`extract_text_from_pdf`, module `PdfText`). The per-page results of `page.extract_text()` are an input sequence of strings. The loop is proved to produce their in-order concatenation. An upload with no pages or only empty pages gives `""` and no error. The prompt built from that text holds each page verbatim, at a known offset.

The timestamp that the source takes from `datetime.now()` is a parameter here, already formatted.

`extract_text_from_pdf` raises nothing for a PDF whose pages give no text. It returns `""`, and the prompt is still built from it (`PagesTextEmptyIff`, `EmptyPdfStillPrompts`).

## Model

| member | source | states |
|---|---|---|
| `Report.CreatePdfReport` | app.py:89-106 | The story that the loop builds equals the specification `Story`: the title block, then the blocks of each section of `analysis.split('\n\n')` in turn. |
| `Report.AddSection` | app.py:100-106 | One pass of the section loop appends exactly the block of that section: a paragraph and `Spacer(1, 12)` when `strip()` is non-empty, nothing otherwise. |
| `Report.StoryLayout` | app.py:90-106 | The story starts with the title paragraph `"Medical Analysis Report - " + organType`, the paragraph `"Generated on: " + timestamp` and `Spacer(1, 20)`. Its length is 3 + 2k for k kept sections. Kept section j sits at index 3 + 2j as an unchanged paragraph with its heading-rule style, followed by `Spacer(1, 12)`. |
| `Report.SectionBlocksLayout` | app.py:100-106 | The sections contribute exactly two flowables per kept section, in section order: the section text, unstripped and styled by the heading rule, then `Spacer(1, 12)`. |
| `Report.KeptSectionsMembers` | app.py:100-101 | A string is a kept section exactly when it is one of the sections and its `strip()` is non-empty. |
| `Report.KeptSectionsAppend` | app.py:100-101 | Filtering keeps order: the kept sections of `a + b` are those of `a` followed by those of `b`. |
| `Report.SectionBlocksAppend` | app.py:100-106 | The blocks of `a + b` are the blocks of `a` followed by the blocks of `b`, so no section's output depends on another section. |
| `Report.BlankSectionAddsNothing` | app.py:101 | A section that is empty or whitespace-only after `strip()` adds nothing to the story, wherever it stands. |
| `Report.KeptRule` | app.py:101 | A section is kept exactly when it holds a character that is not Python whitespace. |
| `Report.IsHeading` | app.py:102 | A section is a heading when it starts with one of `#`, `1.`, `2.`, `3.`, `4.` or `5.`. It is defined through `StartsWithAny` and has no contract of its own. `HeadingRule` states what it means character by character. |
| `Report.HeadingRule` | app.py:102-105 | `startswith(('#', '1.', '2.', '3.', '4.', '5.'))` holds exactly when the first character is `#`, or the first two are a digit from 1 to 5 and a full stop. |
| `Report.HeadingBoundaryCases` | app.py:102-105 | `"1. Findings"`, `"5."` and `"# Summary"` are headings. `"10. Something"`, `"6. x"`, `"  1. x"`, `"1"`, `""` and plain prose are not. |
| `Report.BodySectionsStayNormal` | app.py:102-105 | When no section is a heading, every paragraph the sections contribute has the normal style. |
| `Report.BodyOnlyReport` | app.py:93-105 | For an analysis without heading sections, the title is the only paragraph whose style is not the normal one. |
| `Report.TwoSectionStory` | app.py:93-106 | A heading section and a body section separated by one blank line give exactly the seven flowables of the title block, the heading paragraph, a spacer, the body paragraph and a spacer. |
| `Report.HeartReportExample` | app.py:93-106 | For `"1. Findings\n\nNormal heart rhythm."` in the `Heart` domain, the story is the title `"Medical Analysis Report - Heart"`, the timestamp line, `Spacer(1, 20)`, the heading `"1. Findings"`, a spacer, the body paragraph `"Normal heart rhythm."` and a spacer. |
| `PyStr.Split` | app.py:99 | `str.split(sep)` returns at least one piece. |
| `PyStr.SplitCharacterized` | app.py:99 | A list of pieces equals `s.split(sep)` if and only if the pieces join back to `s` with `sep`, the last piece has no `sep`, and every other piece ends where the leftmost remaining `sep` begins. |
| `PyStr.SplitIsSplitOf` | app.py:99 | The pieces of `Split` satisfy that reference description. |
| `PyStr.SplitOfIsSplit` | app.py:99 | Any list that satisfies the reference description is the result of `Split`. |
| `PyStr.JoinSplit` | app.py:99 | `sep.join(s.split(sep)) == s`. |
| `PyStr.SplitPiecesHaveNoSep` | app.py:99 | No piece of `s.split(sep)` contains `sep`. |
| `PyStr.SplitLeftmostExample` | app.py:99 | `"a\n\n\nb".split("\n\n")` is `["a", "\nb"]`: separators are matched left to right and do not overlap. |
| `PyStr.StartsWithAny` | app.py:102 | `s.startswith(prefixes)` for a tuple holds when some member of the tuple is a prefix of `s`. It has no contract of its own. `Report.HeadingRule` states its meaning for the report's markers. |
| `PyStr.StripLeading` | app.py:101 | `lstrip()` never lengthens the string. What it removes is stated by `StripLeadingRemovesSpacePrefix`. |
| `PyStr.StripTrailing` | app.py:101 | `rstrip()` never lengthens the string. What it removes is stated by `StripTrailingRemovesSpaceSuffix`. |
| `PyStr.Strip` | app.py:101 | `strip()`, that is `rstrip()` after `lstrip()`, never lengthens the string. What it returns is stated by `StripIsTrimmedInfix`, and when it is empty by `StripEmptyIffAllSpace`. |
| `PyStr.StripLeadingRemovesSpacePrefix` | app.py:101 | `lstrip()` removes a whitespace prefix of the string, and the result is empty or starts with a character that is not whitespace. |
| `PyStr.StripTrailingRemovesSpaceSuffix` | app.py:101 | `rstrip()` removes a whitespace suffix of the string, and the result is empty or ends with a character that is not whitespace. |
| `PyStr.StripIsTrimmedInfix` | app.py:101 | `strip()` returns what is left of `s` after all leading and all trailing whitespace is removed: an infix with only whitespace before and after it, that neither starts nor ends with whitespace. |
| `PyStr.StripEmptyIffAllSpace` | app.py:101 | `strip()` returns `""` exactly when every character of the input is whitespace. |
| `Prompt.Fill` | app.py:114-143 | In a filled template, the domain name follows the head directly and the report text follows the middle part verbatim. The length is the sum of the parts. |
| `Prompt.FillKeepsFixedParts` | app.py:114-143 | The head, the middle part and the tail of the template stand unchanged at the start, after the domain name and after the report text. |
| `Prompt.FillTextOccurs` | app.py:141-143 | Anything that occurs in the report text occurs in the filled template, shifted by the head, the domain name and the middle part. |
| `Prompt.FillInjective` | app.py:114-143 | Two fillings of one template that are equal, for domain names of equal length, come from the same domain name and the same text. |
| `Prompt.AnalysisPrompt` | app.py:112-143 | `organ_type` stands right after the fixed prefix, and `text` stands verbatim right after the fixed five-section outline. The length is the sum of the prefix, both inputs, the outline and the trailing newline and indentation. |
| `Prompt.AnalysisPromptFixedParts` | app.py:114-143 | The fixed prefix opens the prompt. The five-section outline, reproduced character for character, follows `organ_type`, and the trailing newline and indentation follow `text`. |
| `Prompt.UnfillFill` | app.py:114-143 | Given the length of the domain name, reading a built prompt back gives the domain name and the report text. |
| `Prompt.FillUnfill` | app.py:114-143 | Every string that reads back as a prompt is the template filled with what was read. |
| `Prompt.AnalysisPromptInjective` | app.py:114-143 | Equal prompts for domain names of equal length come from the same text and the same domain. |
| `Prompt.TextOccursInPrompt` | app.py:141-143 | Anything that occurs in the report text occurs in the prompt, shifted by the prefix, the domain name and the outline. |
| `PdfText.ExtractTextFromPdf` | app.py:185-191 | The accumulation loop, starting from `""`, returns the in-order concatenation of the page texts. |
| `PdfText.PagesTextAppend` | app.py:188-191 | The text of the pages `a + b` is the text of `a` followed by the text of `b`. |
| `PdfText.PageInPlace` | app.py:188-191 | Page i appears verbatim in the extracted text, right after the text of the pages before it. |
| `PdfText.PagesTextEmptyIff` | app.py:188-191 | The extracted text is `""` exactly when every page's text is empty. Zero pages give `""`, not an error. |
| `PdfText.PageInFilledTemplate` | app.py:188-191 | Page i stands verbatim in any template filled with the extracted text, after the head, the domain name, the middle part and the earlier pages. |
| `PdfText.UploadPrompt` | app.py:236-237 | The prompt that a PDF upload sends, `analyze_text(extract_text_from_pdf(file), organ_type)` up to the model call (app.py:147), holds the extracted text verbatim after the prefix, the domain name and the outline. |
| `PdfText.PageInUploadPrompt` | app.py:236-237 | In the prompt built from an uploaded PDF, page i stands verbatim after the prefix, the domain name, the outline and the earlier pages. |
| `PdfText.EmptyPdfStillPrompts` | app.py:236-237 | A PDF with no extractable text still produces a prompt: the template with an empty report text. |

## Left out

- The Gemini client is not modelled: its configuration, the two models and `generate_content` in `analyze_text` and `analyze_image`. These are remote and non-deterministic.
- The scan prompt in `analyze_image` is not modelled. It is a constant template with one hole and adds nothing beyond the text prompt.
- PDF decoding (`PdfReader`, `page.extract_text()`) and image decoding (`Image.open`) are not modelled. The page texts are an input sequence.
- reportlab's page layout and `doc.build` are not modelled. A style is recorded only by its name, parent, font size and space after, and paragraph markup is not interpreted.
- The temporary file, reading it back, `os.unlink` and the download filename are not modelled. This is file I/O, and the code gives no cleanup guarantee on error paths.
- `datetime.now()` and its `strftime` formatting are not modelled. The report timestamp is an already formatted parameter.
- The Streamlit interface is not modelled: page setup, sidebar, tabs, the decorative progress loop with `time.sleep`, and the never-incremented `analysis_count`.
- Lone surrogate code points (U+D800 to U+DFFF) are not modelled. A Python `str` may hold them, but a Dafny `char` is a Unicode scalar value and cannot. Python's `isspace()` is false for them, and `split` and `startswith` compare them like any other character.
- PyStr.Split: requires a non-empty separator, where Python raises `ValueError` for an empty one. The only call passes `"\n\n"`.

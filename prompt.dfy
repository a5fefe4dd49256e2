/** The text-report prompt (`create_analysis_prompt` in app.py): a fixed
    template with two holes, the analysis domain and the extracted report text. */
module Prompt {
  import opened PyStr

  /** The template text before the domain name. */
  const PromptPrefix := "As a specialized medical AI assistant for "

  /** The template text between the domain name and the report text: the
      five-section outline and the heading of the report content. */
  const PromptOutline :=
        " analysis, provide a comprehensive evaluation:\n"
      + "\n"
      + "    1. \U{1F50D} Key Findings:\n"
      + "       - Primary observations\n"
      + "       - Critical measurements\n"
      + "       - Notable patterns\n"
      + "\n"
      + "    2. \U{1F4CB} Diagnostic Assessment:\n"
      + "       - Potential diagnoses (ranked by likelihood)\n"
      + "       - Supporting evidence\n"
      + "       - Differential diagnoses\n"
      + "\n"
      + "    3. \U{26A0}\U{FE0F} Areas of Concern:\n"
      + "       - Critical abnormalities\n"
      + "       - Risk factors\n"
      + "       - Comparative analysis with normal ranges\n"
      + "\n"
      + "    4. \U{1F4A1} Recommendations:\n"
      + "       - Suggested follow-up tests\n"
      + "       - Monitoring requirements\n"
      + "       - Specialist consultations if needed\n"
      + "\n"
      + "    5. \U{1F4CA} Risk Assessment:\n"
      + "       - Severity indicators\n"
      + "       - Progression markers\n"
      + "       - Prognosis factors\n"
      + "\n"
      + "    Medical Report Content:\n"
      + "    "

  /** The template text after the report text: the newline and indentation
      before the closing quotes of the template. */
  const PromptSuffix := "\n    "

  /** A template with two holes: `head`, the domain name, `middle`, the
      report text, `tail`. */
  datatype Template = Template(head: string, middle: string, tail: string)

  /** The template the text model is prompted with. */
  const ReportTemplate := Template(PromptPrefix, PromptOutline, PromptSuffix)

  /** Fills the two holes of `t`: the domain name follows the head
      directly, and the report text stands verbatim before the tail. */
  function Fill(t: Template, organType: string, text: string): (prompt: string)
    ensures |prompt| == |t.head| + |organType| + |t.middle| + |text| + |t.tail|
    ensures OccursAt(prompt, organType, |t.head|)
    ensures OccursAt(prompt, text, |t.head| + |organType| + |t.middle|)
  {
    var prompt := t.head + organType + t.middle + text + t.tail;
    assert prompt[|t.head|..|t.head| + |organType|] == organType;
    assert prompt[|t.head| + |organType| + |t.middle|..|prompt| - |t.tail|] == text;
    prompt
  }

  /** The fixed parts of `t` stand around the holes, unchanged. */
  lemma FillKeepsFixedParts(t: Template, organType: string, text: string)
    ensures var prompt := Fill(t, organType, text);
      && OccursAt(prompt, t.head, 0)
      && OccursAt(prompt, t.middle, |t.head| + |organType|)
      && OccursAt(prompt, t.tail, |t.head| + |organType| + |t.middle| + |text|)
  {
    var prompt := Fill(t, organType, text);
    var textEnd := |t.head| + |organType| + |t.middle| + |text|;
    assert prompt[..|t.head|] == t.head;
    assert prompt[|t.head| + |organType|..|t.head| + |organType| + |t.middle|] == t.middle;
    assert prompt[textEnd..textEnd + |t.tail|] == t.tail;
  }

  /** Whatever occurs in the text hole occurs in the filled template,
      shifted by the head, the domain name and the middle part. */
  lemma FillTextOccurs(t: Template, organType: string, text: string, sub: string, at: int)
    requires OccursAt(text, sub, at)
    ensures OccursAt(Fill(t, organType, text), sub, |t.head| + |organType| + |t.middle| + at)
  {
    OccursTransitive(Fill(t, organType, text), text, sub, |t.head| + |organType| + |t.middle|, at);
  }

  /** Reads the two holes back out of a filled template, given the length of
      the domain name: `Some((organType, text))`, or `None` when the fixed
      parts of `t` are not where `t` puts them. */
  function Unfill(t: Template, prompt: string, organLength: nat): (r: Option<(string, string)>)
    ensures r.Some? ==> |r.value.0| == organLength
  {
    var fixedLength := |t.head| + organLength + |t.middle| + |t.tail|;
    if |prompt| < fixedLength then None
    else
      var organEnd := |t.head| + organLength;
      var textEnd := |prompt| - |t.tail|;
      if && OccursAt(prompt, t.head, 0)
         && OccursAt(prompt, t.middle, organEnd)
         && OccursAt(prompt, t.tail, textEnd)
      then Some((prompt[|t.head|..organEnd], prompt[organEnd + |t.middle|..textEnd]))
      else None
  }

  /** Reading a filled template recovers the domain name and the report text. */
  lemma UnfillFill(t: Template, organType: string, text: string)
    ensures Unfill(t, Fill(t, organType, text), |organType|) == Some((organType, text))
  {
  }

  /** Whatever can be read was filled in from what was read. */
  lemma FillUnfill(t: Template, prompt: string, organLength: nat)
    requires Unfill(t, prompt, organLength).Some?
    ensures var (organType, text) := Unfill(t, prompt, organLength).value;
      prompt == Fill(t, organType, text)
  {
    var (organType, text) := Unfill(t, prompt, organLength).value;
    var organEnd := |t.head| + organLength;
    var middleEnd := organEnd + |t.middle|;
    var textEnd := |prompt| - |t.tail|;
    assert prompt[..|t.head|] == t.head;
    assert prompt[|t.head|..organEnd] == organType;
    assert prompt[organEnd..middleEnd] == t.middle;
    assert prompt[middleEnd..textEnd] == text;
    assert prompt[textEnd..] == t.tail;
    CutInFive(prompt, |t.head|, organEnd, middleEnd, textEnd);
  }

  lemma CutInFive(w: string, i: nat, j: nat, k: nat, l: nat)
    requires i <= j <= k <= l <= |w|
    ensures w == w[..i] + w[i..j] + w[j..k] + w[k..l] + w[l..]
  {
  }

  /** Two fillings of `t` that agree, for domain names of the same length,
      were made from the same domain name and the same text. */
  lemma FillInjective(t: Template, organ1: string, text1: string, organ2: string, text2: string)
    requires |organ1| == |organ2|
    requires Fill(t, organ1, text1) == Fill(t, organ2, text2)
    ensures organ1 == organ2 && text1 == text2
  {
    var prompt := Fill(t, organ1, text1);
    var start := |t.head| + |organ1| + |t.middle|;
    assert organ1 == prompt[|t.head|..|t.head| + |organ1|] == organ2;
    assert text1 == prompt[start..start + |text1|] == text2;
  }

  /** `create_analysis_prompt`: the prompt sent to the text model for the
      extracted `text` in the domain `organType`. The domain name follows the
      fixed prefix directly; the report text follows the outline verbatim.
      Offsets are stated through `ReportTemplate`, whose head, middle and
      tail are `PromptPrefix`, `PromptOutline` and `PromptSuffix`. */
  function AnalysisPrompt(text: string, organType: string): (prompt: string)
    ensures |prompt| == |ReportTemplate.head| + |organType| + |ReportTemplate.middle| + |text| + |ReportTemplate.tail|
    ensures OccursAt(prompt, organType, |ReportTemplate.head|)
    ensures OccursAt(prompt, text, |ReportTemplate.head| + |organType| + |ReportTemplate.middle|)
  {
    Fill(ReportTemplate, organType, text)
  }

  /** Around the two inputs, the prompt holds the fixed prefix, the
      five-section outline and the fixed suffix, unchanged. */
  lemma AnalysisPromptFixedParts(text: string, organType: string)
    ensures OccursAt(AnalysisPrompt(text, organType), ReportTemplate.head, 0)
    ensures OccursAt(AnalysisPrompt(text, organType), ReportTemplate.middle,
      |ReportTemplate.head| + |organType|)
    ensures OccursAt(AnalysisPrompt(text, organType), ReportTemplate.tail,
      |ReportTemplate.head| + |organType| + |ReportTemplate.middle| + |text|)
  {
    FillKeepsFixedParts(ReportTemplate, organType, text);
  }

  /** Whatever occurs in the report text occurs in the prompt, shifted by
      the fixed prefix, the domain name and the outline. */
  lemma TextOccursInPrompt(text: string, organType: string, sub: string, at: int)
    requires OccursAt(text, sub, at)
    ensures OccursAt(AnalysisPrompt(text, organType), sub,
      |ReportTemplate.head| + |organType| + |ReportTemplate.middle| + at)
  {
    FillTextOccurs(ReportTemplate, organType, text, sub, at);
  }

  /** Two prompts that agree, for domain names of the same length, were
      built from the same text and the same domain. */
  lemma AnalysisPromptInjective(text1: string, organ1: string, text2: string, organ2: string)
    requires |organ1| == |organ2|
    requires AnalysisPrompt(text1, organ1) == AnalysisPrompt(text2, organ2)
    ensures text1 == text2 && organ1 == organ2
  {
    FillInjective(ReportTemplate, organ1, text1, organ2, text2);
  }
}

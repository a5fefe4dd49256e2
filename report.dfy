/** The report renderer's story assembly (`create_pdf_report` in app.py):
    the ordered list of reportlab flowables handed to `doc.build`.
    The reportlab objects are modelled as values; laying them out on pages,
    the temporary file and the clock are not part of this model, and the
    timestamp arrives already formatted. */
module Report {
  import opened PyStr

  /** A reportlab `ParagraphStyle` as the report configures it. */
  datatype ParagraphStyle = ParagraphStyle(name: string, parent: string, fontSize: nat, spaceAfter: nat)

  const TitleStyle := ParagraphStyle("CustomTitle", "Heading1", 24, 30)
  const HeadingStyle := ParagraphStyle("CustomHeading", "Heading2", 16, 12)
  const NormalStyle := ParagraphStyle("CustomNormal", "Normal", 12, 12)

  /** The two kinds of reportlab flowable the story holds. */
  datatype Flowable =
    | Paragraph(text: string, style: ParagraphStyle)
    | Spacer(width: int, height: int)

  /** Sections of the analysis are separated by a blank line. */
  const SectionBreak := "\n\n"

  /** The prefixes, tried as a tuple by `str.startswith`, that make a section a heading. */
  const HeadingMarkers: seq<string> := ["#", "1.", "2.", "3.", "4.", "5."]

  /** The title block that opens every report. */
  function TitleBlock(organType: string, timestamp: string): seq<Flowable>
  {
    [ Paragraph("Medical Analysis Report - " + organType, TitleStyle),
      Paragraph("Generated on: " + timestamp, NormalStyle),
      Spacer(1, 20) ]
  }

  /** `section.strip()` is truthy. */
  predicate IsKept(section: string)
  {
    Strip(section) != ""
  }

  /** `section.startswith(('#', '1.', '2.', '3.', '4.', '5.'))`. */
  predicate IsHeading(section: string)
  {
    StartsWithAny(section, HeadingMarkers)
  }

  function StyleFor(section: string): ParagraphStyle
  {
    if IsHeading(section) then HeadingStyle else NormalStyle
  }

  /** What one section adds to the story. */
  function SectionBlock(section: string): seq<Flowable>
  {
    if IsKept(section) then [Paragraph(section, StyleFor(section)), Spacer(1, 12)] else []
  }

  /** What a run of sections adds to the story, one section after another. */
  function SectionBlocks(sections: seq<string>): seq<Flowable>
  {
    if sections == [] then []
    else SectionBlocks(sections[..|sections| - 1]) + SectionBlock(sections[|sections| - 1])
  }

  /** The sections that survive the blank test, in their original order. */
  function KeptSections(sections: seq<string>): seq<string>
  {
    if sections == [] then []
    else
      var last := sections[|sections| - 1];
      KeptSections(sections[..|sections| - 1]) + (if IsKept(last) then [last] else [])
  }

  /** The whole story for an analysis text. */
  function Story(analysis: string, organType: string, timestamp: string): seq<Flowable>
  {
    TitleBlock(organType, timestamp) + SectionBlocks(Split(analysis, SectionBreak))
  }

  /** `create_pdf_report` up to `doc.build(story)`: the story it builds. */
  method CreatePdfReport(analysis: string, organType: string, timestamp: string)
    returns (story: seq<Flowable>)
    ensures story == Story(analysis, organType, timestamp)
  {
    story := [];
    story := story + [Paragraph("Medical Analysis Report - " + organType, TitleStyle)];
    story := story + [Paragraph("Generated on: " + timestamp, NormalStyle)];
    story := story + [Spacer(1, 20)];

    var sections := Split(analysis, SectionBreak);
    for i := 0 to |sections|
      invariant story == TitleBlock(organType, timestamp) + SectionBlocks(sections[..i])
    {
      story := AddSection(story, sections[i]);
      SectionBlocksStep(sections, i);
    }
    assert sections[..|sections|] == sections;
  }

  /** One pass of the section loop: a section that is not blank is appended
      as a paragraph, styled by the heading rule, and a 12-point spacer. */
  method AddSection(story: seq<Flowable>, section: string) returns (extended: seq<Flowable>)
    ensures extended == story + SectionBlock(section)
  {
    extended := story;
    if Strip(section) != "" {
      if StartsWithAny(section, HeadingMarkers) {
        extended := extended + [Paragraph(section, HeadingStyle)];
      } else {
        extended := extended + [Paragraph(section, NormalStyle)];
      }
      extended := extended + [Spacer(1, 12)];
    }
  }

  /** One more section adds its own block at the end. */
  lemma SectionBlocksStep(sections: seq<string>, i: nat)
    requires i < |sections|
    ensures SectionBlocks(sections[..i + 1]) == SectionBlocks(sections[..i]) + SectionBlock(sections[i])
  {
    assert sections[..i + 1][..i] == sections[..i];
  }

  /** A section is a heading exactly when it starts with `#`, or with one of
      the digits 1 to 5 followed by a full stop. */
  lemma HeadingRule(section: string)
    ensures IsHeading(section) <==>
      || (|section| >= 1 && section[0] == '#')
      || (|section| >= 2 && '1' <= section[0] <= '5' && section[1] == '.')
  {
    if |section| >= 1 && section[0] == '#' {
      assert StartsWith(section, HeadingMarkers[0]);
    }
    if |section| >= 2 && '1' <= section[0] <= '5' && section[1] == '.' {
      var k := (section[0] as int) - ('0' as int);
      assert section[..2] == HeadingMarkers[k];
      assert StartsWith(section, HeadingMarkers[k]);
    }
    if IsHeading(section) {
      var k :| 0 <= k < |HeadingMarkers| && StartsWith(section, HeadingMarkers[k]);
      assert section[..|HeadingMarkers[k]|] == HeadingMarkers[k];
      if k == 0 {
        assert section[0] == '#';
      } else {
        assert section[..2][0] == section[0] && section[..2][1] == section[1];
      }
    }
  }

  /** Boundary cases of the heading rule: only the exact markers count, and
      leading spaces are not stripped before the test. */
  lemma HeadingBoundaryCases()
    ensures IsHeading("1. Findings") && IsHeading("5.") && IsHeading("# Summary")
    ensures !IsHeading("10. Something") && !IsHeading("6. x") && !IsHeading("  1. x")
    ensures !IsHeading("1") && !IsHeading("") && !IsHeading("Normal heart rhythm.")
  {
    assert IsHeading("1. Findings") by { HeadingRule("1. Findings"); }
    assert IsHeading("5.") by { HeadingRule("5."); }
    assert IsHeading("# Summary") by { HeadingRule("# Summary"); }
    assert !IsHeading("10. Something") by { HeadingRule("10. Something"); }
    assert !IsHeading("6. x") by { HeadingRule("6. x"); }
    assert !IsHeading("  1. x") by { HeadingRule("  1. x"); }
    assert !IsHeading("1") by { HeadingRule("1"); }
    assert !IsHeading("") by { HeadingRule(""); }
    assert !IsHeading("Normal heart rhythm.") by { HeadingRule("Normal heart rhythm."); }
  }

  /** A section is kept exactly when it holds a character that is not whitespace. */
  lemma KeptRule(section: string)
    ensures IsKept(section) <==> exists i :: 0 <= i < |section| && !IsSpace(section[i])
  {
    StripEmptyIffAllSpace(section);
  }

  lemma {:induction false} SectionBlocksAppend(a: seq<string>, b: seq<string>)
    ensures SectionBlocks(a + b) == SectionBlocks(a) + SectionBlocks(b)
    decreases |b|
  {
    if b == [] {
      assert a + b == a;
    } else {
      var b' := b[..|b| - 1];
      assert (a + b)[..|a + b| - 1] == a + b';
      assert (a + b)[|a + b| - 1] == b[|b| - 1];
      SectionBlocksAppend(a, b');
    }
  }

  lemma {:induction false} KeptSectionsAppend(a: seq<string>, b: seq<string>)
    ensures KeptSections(a + b) == KeptSections(a) + KeptSections(b)
    decreases |b|
  {
    if b == [] {
      assert a + b == a;
    } else {
      var b' := b[..|b| - 1];
      assert (a + b)[..|a + b| - 1] == a + b';
      assert (a + b)[|a + b| - 1] == b[|b| - 1];
      KeptSectionsAppend(a, b');
    }
  }

  /** The kept sections are exactly the sections that pass the blank test. */
  lemma {:induction false} KeptSectionsMembers(sections: seq<string>)
    ensures forall x :: x in KeptSections(sections) <==> x in sections && IsKept(x)
  {
    if sections != [] {
      var init := sections[..|sections| - 1];
      KeptSectionsMembers(init);
      assert sections == init + [sections[|sections| - 1]];
    }
  }

  /** A blank or whitespace-only section adds nothing to the story. */
  lemma BlankSectionAddsNothing(before: seq<string>, section: string, after: seq<string>)
    requires !IsKept(section)
    ensures SectionBlocks(before + [section] + after) == SectionBlocks(before + after)
  {
    var withBlank := before + [section];
    assert withBlank[..|withBlank| - 1] == before;
    assert SectionBlock(section) == [];
    assert SectionBlocks(withBlank) == SectionBlocks(before);
    SectionBlocksAppend(withBlank, after);
    SectionBlocksAppend(before, after);
  }

  /** Each kept section contributes its paragraph, with the section text
      unchanged and styled by the heading rule, followed by a 12-point spacer,
      in the order the sections come. */
  lemma {:induction false} SectionBlocksLayout(sections: seq<string>)
    ensures |SectionBlocks(sections)| == 2 * |KeptSections(sections)|
    ensures forall j :: 0 <= j < |KeptSections(sections)| ==>
      && SectionBlocks(sections)[2 * j] == Paragraph(KeptSections(sections)[j], StyleFor(KeptSections(sections)[j]))
      && SectionBlocks(sections)[2 * j + 1] == Spacer(1, 12)
  {
    if sections != [] {
      SectionBlocksLayout(sections[..|sections| - 1]);
    }
  }

  /** The story opens with the title, the generation time and a 20-point
      spacer; then come two flowables per kept section, so its length is
      3 + 2k for k kept sections. */
  lemma StoryLayout(analysis: string, organType: string, timestamp: string)
    ensures var story := Story(analysis, organType, timestamp);
      var kept := KeptSections(Split(analysis, SectionBreak));
      && |story| == 3 + 2 * |kept|
      && story[0] == Paragraph("Medical Analysis Report - " + organType, TitleStyle)
      && story[1] == Paragraph("Generated on: " + timestamp, NormalStyle)
      && story[2] == Spacer(1, 20)
      && forall j :: 0 <= j < |kept| ==>
        && story[3 + 2 * j] == Paragraph(kept[j], StyleFor(kept[j]))
        && story[4 + 2 * j] == Spacer(1, 12)
  {
    var sections := Split(analysis, SectionBreak);
    SectionBlocksLayout(sections);
    var blocks := SectionBlocks(sections);
    var story := Story(analysis, organType, timestamp);
    assert story == TitleBlock(organType, timestamp) + blocks;
    forall j | 0 <= j < |KeptSections(sections)|
      ensures story[3 + 2 * j] == blocks[2 * j] && story[4 + 2 * j] == blocks[2 * j + 1]
    {
    }
  }

  lemma {:induction false} BodySectionsStayNormal(sections: seq<string>)
    requires forall k :: 0 <= k < |sections| ==> !IsHeading(sections[k])
    ensures forall j :: 0 <= j < |SectionBlocks(sections)| && SectionBlocks(sections)[j].Paragraph? ==>
      SectionBlocks(sections)[j].style == NormalStyle
  {
    if sections != [] {
      BodySectionsStayNormal(sections[..|sections| - 1]);
    }
  }

  /** A report whose sections are all body text has exactly one paragraph
      outside the normal style: the title. */
  lemma BodyOnlyReport(analysis: string, organType: string, timestamp: string)
    requires forall k :: 0 <= k < |Split(analysis, SectionBreak)| ==> !IsHeading(Split(analysis, SectionBreak)[k])
    ensures var story := Story(analysis, organType, timestamp);
      forall j :: 0 <= j < |story| && story[j].Paragraph? ==>
        (story[j].style == NormalStyle <==> j != 0)
  {
    var blocks := SectionBlocks(Split(analysis, SectionBreak));
    BodySectionsStayNormal(Split(analysis, SectionBreak));
    var story := Story(analysis, organType, timestamp);
    forall j | 3 <= j < |story|
      ensures story[j] == blocks[j - 3]
    {
    }
  }

  /** An analysis of two sections, a heading and then body text, gives the
      title block followed by the two styled paragraphs and their spacers. */
  lemma TwoSectionStory(heading: string, body: string, organType: string, timestamp: string)
    requires IsKept(heading) && IsHeading(heading) && CutAtFirst(heading, SectionBreak)
    requires IsKept(body) && !IsHeading(body) && !Contains(body, SectionBreak)
    ensures Story(heading + SectionBreak + body, organType, timestamp) ==
      [ Paragraph("Medical Analysis Report - " + organType, TitleStyle),
        Paragraph("Generated on: " + timestamp, NormalStyle),
        Spacer(1, 20),
        Paragraph(heading, HeadingStyle),
        Spacer(1, 12),
        Paragraph(body, NormalStyle),
        Spacer(1, 12) ]
  {
    var parts := [heading, body];
    assert parts[1..] == [body];
    forall k | 0 <= k < |parts| - 1
      ensures CutAtFirst(parts[k], SectionBreak)
    {
      assert k == 0;
    }
    SplitOfIsSplit(parts, heading + SectionBreak + body, SectionBreak);
    assert parts[..1] == [heading];
    assert [heading][..0] == [];
    assert SectionBlocks([heading]) == SectionBlock(heading);
    assert SectionBlocks(parts) == SectionBlock(heading) + SectionBlock(body);
  }

  lemma FindingsHeadingFacts()
    ensures IsKept("1. Findings") && IsHeading("1. Findings") && CutAtFirst("1. Findings", SectionBreak)
  {
    var heading := "1. Findings";
    assert CutAtFirst(heading, SectionBreak) by {
      forall j | 0 <= j < |heading|
        ensures !OccursAt(heading + SectionBreak, SectionBreak, j)
      {
        assert (heading + SectionBreak)[j] != '\n';
      }
    }
    assert IsHeading(heading) by {
      assert StartsWith(heading, HeadingMarkers[1]);
    }
    assert IsKept(heading) by {
      KeptRule(heading);
      assert !IsSpace(heading[0]);
    }
  }

  lemma RhythmBodyFacts()
    ensures IsKept("Normal heart rhythm.") && !IsHeading("Normal heart rhythm.")
    ensures !Contains("Normal heart rhythm.", SectionBreak)
  {
    var body := "Normal heart rhythm.";
    assert !Contains(body, SectionBreak) by {
      forall j | 0 <= j <= |body| - 2
        ensures !OccursAt(body, SectionBreak, j)
      {
        assert body[j] != '\n';
      }
    }
    assert !IsHeading(body) by {
      HeadingRule(body);
    }
    assert IsKept(body) by {
      KeptRule(body);
      assert !IsSpace(body[0]);
    }
  }

  /** The backend answers "1. Findings", a blank line, then "Normal heart
      rhythm." for the Heart domain. */
  lemma HeartReportExample(timestamp: string)
    ensures Story("1. Findings" + SectionBreak + "Normal heart rhythm.", "Heart", timestamp) ==
      [ Paragraph("Medical Analysis Report - " + "Heart", TitleStyle),
        Paragraph("Generated on: " + timestamp, NormalStyle),
        Spacer(1, 20),
        Paragraph("1. Findings", HeadingStyle),
        Spacer(1, 12),
        Paragraph("Normal heart rhythm.", NormalStyle),
        Spacer(1, 12) ]
  {
    FindingsHeadingFacts();
    RhythmBodyFacts();
    TwoSectionStory("1. Findings", "Normal heart rhythm.", "Heart", timestamp);
  }
}

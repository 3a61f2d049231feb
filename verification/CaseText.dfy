/** The text of a printed case, line by line, and how its fields are read back. */
module CaseText {
  import opened Common
  import opened Text
  import opened CaseFormat
  import opened CaseItems
  import opened CaseRoundTrip
  import opened CaseScripts

  /** `- key: value` for each value that is there. */
  function MetaText(c: Case): seq<string> {
    (if c.date == "" then [] else ["- date: " + c.date])
    + (if c.severity == "" then [] else ["- severity: " + c.severity])
    + (if c.chipId == "" then [] else ["- chip_id: " + c.chipId])
    + (if c.qid == "" then [] else ["- qid: " + c.qid])
    + (if c.status == "" then [] else ["- status: " + c.status])
    + (if c.issueId == "" then [] else ["- issue_id: " + c.issueId])
  }

  /** One reference per figure, then one per image of the thread. */
  function ImageText(c: Case): seq<string> {
    seq(|c.figurePaths|, i requires 0 <= i < |c.figurePaths| => "![Task figure](" + c.figurePaths[i] + ")")
    + seq(|c.imageUrls|, i requires 0 <= i < |c.imageUrls| => "![Thread image](" + c.imageUrls[i] + ")")
  }

  function LessonText(c: Case): seq<string> {
    seq(|c.lessons|, i requires 0 <= i < |c.lessons| => "- " + c.lessons[i])
  }

  /** A printed case, line by line. */
  lemma PrintedText(c: Case)
    ensures
      Render(c) == Join(
        ["# " + c.title, ""]
        + (if MetaText(c) == [] then [] else MetaText(c) + [""])
        + (if c.symptom == "" then [] else ["## Symptom", "", c.symptom, ""])
        + (if c.rootCause == "" then [] else ["## Root cause", "", c.rootCause, ""])
        + (if c.resolution == "" then [] else ["## Resolution", "", c.resolution, ""])
        + (if c.lessons == [] then [] else ["## Lesson learned", ""] + LessonText(c) + [""])
        + (if c.figurePaths == [] && c.imageUrls == [] then [] else ["## Images", ""] + ImageText(c) + [""]))
  {
    hide Join, MetaLines, Blocks, Block, MetaText, ImageText, LessonText, LessonBody, ImageBody, TextBody;
    MetaIs(c);
    BlocksAppended(Head(c), Parts(c));
    TextBlocks(c);
    ListBlocks(c);
  }

  lemma TextBlocks(c: Case)
    ensures Block("Symptom", TextBody(c.symptom)) == if c.symptom == "" then [] else ["## Symptom", "", c.symptom, ""]
    ensures Block("Root cause", TextBody(c.rootCause)) ==
      if c.rootCause == "" then [] else ["## Root cause", "", c.rootCause, ""]
    ensures Block("Resolution", TextBody(c.resolution)) ==
      if c.resolution == "" then [] else ["## Resolution", "", c.resolution, ""]
  {
    hide Block, TextBody;
    TextBlockIs("Symptom", c.symptom);
    TextBlockIs("Root cause", c.rootCause);
    TextBlockIs("Resolution", c.resolution);
    HeadingTexts();
  }

  lemma ListBlocks(c: Case)
    ensures Block("Lesson learned", LessonBody(c.lessons)) ==
      if c.lessons == [] then [] else ["## Lesson learned", ""] + LessonText(c) + [""]
    ensures Block("Images", ImageBody(c)) ==
      if c.figurePaths == [] && c.imageUrls == [] then [] else ["## Images", ""] + ImageText(c) + [""]
  {
    hide LessonText, ImageText, LessonBody, ImageBody;
    LessonsAre(c);
    ImagesAre(c);
    HeadingTexts();
  }

  lemma HeadingTexts()
    ensures "## " + "Symptom" == "## Symptom" && "## " + "Root cause" == "## Root cause"
    ensures "## " + "Resolution" == "## Resolution" && "## " + "Lesson learned" == "## Lesson learned"
    ensures "## " + "Images" == "## Images"
  {
  }

  lemma TextBlockIs(heading: string, text: string)
    ensures Block(heading, TextBody(text)) == if text == "" then [] else ["## " + heading, "", text, ""]
  {
  }

  lemma MetaIs(c: Case)
    ensures MetaLines(Pairs(c)) == MetaText(c)
  {
    hide MetaLines;
    SixMetaLines(Pairs(c));
    DateKeyTexts();
    IdKeyTexts();
  }

  lemma DateKeyTexts()
    ensures "- " + "date" + ": " == "- date: "
    ensures "- " + "severity" + ": " == "- severity: "
    ensures "- " + "status" + ": " == "- status: "
  {
    assert "- " + "date" == "- date" && "- " + "severity" == "- severity" && "- " + "status" == "- status";
  }

  lemma IdKeyTexts()
    ensures "- " + "chip_id" + ": " == "- chip_id: "
    ensures "- " + "qid" + ": " == "- qid: "
    ensures "- " + "issue_id" + ": " == "- issue_id: "
  {
    assert "- " + "chip_id" == "- chip_id" && "- " + "qid" == "- qid" && "- " + "issue_id" == "- issue_id";
  }

  lemma {:induction false} LessonLine(lessons: seq<string>, i: nat)
    ensures |LessonBody(lessons)| == |lessons|
    ensures i < |lessons| ==> LessonBody(lessons)[i] == "- " + lessons[i]
    decreases |lessons|
  {
    if lessons == [] {
    } else {
      LessonLine(lessons[1..], if i == 0 then 0 else i - 1);
    }
  }

  lemma LessonsAre(c: Case)
    ensures LessonBody(c.lessons) == LessonText(c)
    ensures LessonBody(c.lessons) == [] <==> c.lessons == []
  {
    hide LessonBody;
    LessonLine(c.lessons, 0);
    forall i | 0 <= i < |c.lessons| ensures LessonBody(c.lessons)[i] == LessonText(c)[i] {
      LessonLine(c.lessons, i);
    }
  }

  lemma {:induction false} ImageLineAt(alt: string, urls: seq<string>, i: nat)
    ensures |ImageLines(alt, urls)| == |urls|
    ensures i < |urls| ==> ImageLines(alt, urls)[i] == "![" + alt + "](" + urls[i] + ")"
    decreases |urls|
  {
    if urls == [] {
    } else {
      ImageLineAt(alt, urls[1..], if i == 0 then 0 else i - 1);
    }
  }

  lemma ImagesAre(c: Case)
    ensures ImageBody(c) == ImageText(c)
    ensures ImageBody(c) == [] <==> c.figurePaths == [] && c.imageUrls == []
  {
    hide ImageLines;
    ImageLineAt("Task figure", c.figurePaths, 0);
    ImageLineAt("Thread image", c.imageUrls, 0);
    AltTexts();
    forall i | 0 <= i < |c.figurePaths|
      ensures ImageLines("Task figure", c.figurePaths)[i] == "![Task figure](" + c.figurePaths[i] + ")"
    {
      ImageLineAt("Task figure", c.figurePaths, i);
    }
    forall i | 0 <= i < |c.imageUrls|
      ensures ImageLines("Thread image", c.imageUrls)[i] == "![Thread image](" + c.imageUrls[i] + ")"
    {
      ImageLineAt("Thread image", c.imageUrls, i);
    }
  }

  lemma AltTexts()
    ensures "![" + "Task figure" + "](" == "![Task figure]("
    ensures "![" + "Thread image" + "](" == "![Thread image]("
  {
    assert "![" + "Task figure" == "![Task figure";
    assert "![" + "Thread image" == "![Thread image";
  }

  /** Read back, every value is stripped; an empty severity is "warning", an empty status "resolved". */
  lemma ParsedText(c: Case)
    requires AllOneLine([c.title, c.date, c.severity, c.chipId, c.qid, c.status, c.issueId])
    requires AllOneLine(c.lessons) && AllOneLine(c.figurePaths) && AllOneLine(c.imageUrls)
    requires NoHeading(c.symptom) && NoHeading(c.rootCause) && NoHeading(c.resolution)
    ensures Parse(Render(c)) == Some(Parsed(
      Strip(c.title), Strip(c.date), if c.severity == "" then "warning" else Strip(c.severity), Strip(c.chipId),
      Strip(c.qid), if c.status == "" then "resolved" else Strip(c.status), Strip(c.symptom), Strip(c.rootCause),
      Strip(c.resolution), NormalLessons(c.lessons)))
  {
    hide Parse, Render;
    ParseRender(c);
  }

  /** A key is read in lower case and with underscores for spaces. */
  lemma KeySpelling(key: string, value: string)
    requires key != "" && !IsSpace(key[0]) && !IsSpace(key[|key| - 1]) && ':' !in key
    ensures
      var name := seq(|key|, i requires 0 <= i < |key| =>
        if key[i] == ' ' then '_' else if 'A' <= key[i] <= 'Z' then (key[i] as int + 32) as char else key[i]);
      MetaOf("- " + key + ": " + value) == Some((name, Strip(value)))
  {
    hide Strip, StripRight;
    var rest := StripRight(" " + value);
    StripMetaLine(key, value);
    assert ("- " + key + ":" + rest)[2..] == key + ":" + rest;
    ColonAt(key, rest);
    StripValue(value);
    StripSame(key);
    var content := key + ":" + rest;
    assert content[..|key|] == key && content[|key| + 1..] == rest;
    Spelled(key);
  }

  lemma Spelled(key: string)
    ensures Underscored(Lower(key)) == seq(|key|, i requires 0 <= i < |key| =>
      if key[i] == ' ' then '_' else if 'A' <= key[i] <= 'Z' then (key[i] as int + 32) as char else key[i])
  {
  }

  lemma ColonAt(key: string, rest: string)
    requires ':' !in key
    ensures IndexOf(key + ":" + rest, ':') == |key|
  {
    var content := key + ":" + rest;
    assert content[|key|] == ':';
    assert forall i :: 0 <= i < |key| ==> content[i] == key[i];
  }
}

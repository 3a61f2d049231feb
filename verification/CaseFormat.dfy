/** Issue-knowledge cases: what scripts/export_issue_knowledge.py prints and what
    scripts/generate_task_knowledge.py reads. */
module CaseFormat {
  import opened Common
  import opened Text

  /** An approved case. A missing or null field is the empty string, which the printer treats alike. */
  datatype Case = Case(
    title: string, date: string, severity: string, chipId: string, qid: string, status: string, issueId: string,
    symptom: string, rootCause: string, resolution: string, lessons: seq<string>,
    figurePaths: seq<string>, imageUrls: seq<string>)

  /** What the parser returns, without the encoded images. */
  datatype Parsed = Parsed(
    title: string, date: string, severity: string, chipId: string, qid: string, status: string,
    symptom: string, rootCause: string, resolution: string, lessons: seq<string>)

  // ---------------------------------------------------------------------
  // Printer
  // ---------------------------------------------------------------------

  function MetaLine(key: string, value: string): seq<string> {
    if value == "" then [] else ["- " + key + ": " + value]
  }

  /** The metadata of a case in printing order: key and value. */
  function Pairs(c: Case): seq<(string, string)> {
    [("date", c.date), ("severity", c.severity), ("chip_id", c.chipId), ("qid", c.qid), ("status", c.status),
     ("issue_id", c.issueId)]
  }

  function MetaLines(pairs: seq<(string, string)>): seq<string> {
    if pairs == [] then [] else MetaLine(pairs[0].0, pairs[0].1) + MetaLines(pairs[1..])
  }

  function Head(c: Case): seq<string> {
    var meta := MetaLines(Pairs(c));
    ["# " + c.title, ""] + if meta == [] then [] else meta + [""]
  }

  /** A section, left out when it has nothing to say. */
  function Block(heading: string, body: seq<string>): seq<string> {
    if body == [] then [] else ["## " + heading, ""] + body + [""]
  }

  function TextBody(text: string): seq<string> {
    if text == "" then [] else [text]
  }

  function LessonBody(lessons: seq<string>): seq<string> {
    if lessons == [] then [] else ["- " + lessons[0]] + LessonBody(lessons[1..])
  }

  function ImageLines(alt: string, urls: seq<string>): seq<string> {
    if urls == [] then [] else ["![" + alt + "](" + urls[0] + ")"] + ImageLines(alt, urls[1..])
  }

  function ImageBody(c: Case): seq<string> {
    ImageLines("Task figure", c.figurePaths) + ImageLines("Thread image", c.imageUrls)
  }

  /** The sections of a case in printing order: heading and body. */
  function Parts(c: Case): seq<(string, seq<string>)> {
    [("Symptom", TextBody(c.symptom)), ("Root cause", TextBody(c.rootCause)),
     ("Resolution", TextBody(c.resolution)), ("Lesson learned", LessonBody(c.lessons)), ("Images", ImageBody(c))]
  }

  function Blocks(parts: seq<(string, seq<string>)>): seq<string> {
    if parts == [] then [] else Block(parts[0].0, parts[0].1) + Blocks(parts[1..])
  }

  function Render(c: Case): string {
    Join(Head(c) + Blocks(Parts(c)))
  }

  // ---------------------------------------------------------------------
  // Parser
  // ---------------------------------------------------------------------

  predicate IsH1(line: string) {
    "# " <= line && !("## " <= line)
  }

  function Underscored(s: string): string {
    seq(|s|, i requires 0 <= i < |s| => if s[i] == ' ' then '_' else s[i])
  }

  const META_KEYS := {"date", "severity", "chip_id", "qid", "status"}

  function MetaOfContent(content: string): Option<(string, string)> {
    var colon := IndexOf(content, ':');
    if colon < |content| then
      Some((Underscored(Lower(Strip(content[..colon]))), Strip(content[colon + 1..])))
    else None
  }

  /** The key and the value of a line "- key: value". */
  function MetaOf(line: string): Option<(string, string)> {
    var stripped := Strip(line);
    if "- " <= stripped then MetaOfContent(stripped[2..]) else None
  }

  function AddMeta(metadata: map<string, string>, line: string): map<string, string> {
    match MetaOf(line)
    case Some((key, value)) => if key in META_KEYS then metadata[key := value] else metadata
    case None => metadata
  }

  function AddAllMeta(metadata: map<string, string>, lines: seq<string>): map<string, string>
    decreases |lines|
  {
    if lines == [] then metadata else AddAllMeta(AddMeta(metadata, lines[0]), lines[1..])
  }

  function Heading(line: string): string
    requires IsH2(line)
  {
    Lower(Strip(line[3..]))
  }

  /** The sections of a list of lines that starts at a heading; a later heading of the same name wins. */
  function Sections(lines: seq<string>): map<string, string>
    requires lines == [] || IsH2(lines[0])
    decreases |lines|
  {
    if lines == [] then map[]
    else
      var end := 1 + Find(IsH2, lines[1..]);
      map[Heading(lines[0]) := Strip(Join(lines[1..end]))] + Sections(lines[end..])
  }

  function Item(line: string): seq<string> {
    var stripped := Strip(line);
    if "- " <= stripped then [stripped[2..]] else []
  }

  function Items(lines: seq<string>): seq<string> {
    if lines == [] then [] else Item(lines[0]) + Items(lines[1..])
  }

  function ParseListItems(text: string): seq<string> {
    Items(SplitLines(Strip(text)))
  }

  function Get(m: map<string, string>, key: string, default: string): string {
    if key in m then m[key] else default
  }

  function LessonsOf(sections: map<string, string>): seq<string> {
    if "lesson learned" in sections then ParseListItems(sections["lesson learned"]) else []
  }

  function Assemble(title: string, metadata: map<string, string>, sections: map<string, string>): Parsed {
    Parsed(title, Get(metadata, "date", ""), Get(metadata, "severity", "warning"), Get(metadata, "chip_id", ""),
           Get(metadata, "qid", ""), Get(metadata, "status", "resolved"),
           Get(sections, "symptom", ""), Get(sections, "root cause", ""), Get(sections, "resolution", ""),
           LessonsOf(sections))
  }

  /** `lines[from:to]`. */
  function Slice(lines: seq<string>, from: nat, to: nat): seq<string>
    requires to <= |lines|
  {
    if from <= to then lines[from..to] else []
  }

  /** The lines from a position to the first section heading. */
  function MetaSlice(lines: seq<string>, from: nat): seq<string> {
    Slice(lines, from, Find(IsH2, lines))
  }

  /** The title, the metadata and the sections of a file that has a title. */
  function Outline(lines: seq<string>): Option<(string, map<string, string>, map<string, string>)> {
    var title := Find(IsH1, lines);
    if title == |lines| then None
    else Some((Strip(lines[title][2..]), AddAllMeta(map[], MetaSlice(lines, title + 1)),
               Sections(lines[Find(IsH2, lines)..])))
  }

  function ParseLines(lines: seq<string>): Option<Parsed> {
    match Outline(lines)
    case Some((title, metadata, sections)) => Some(Assemble(title, metadata, sections))
    case None => None
  }

  function Parse(text: string): Option<Parsed> {
    ParseLines(SplitLines(text))
  }

  // ---------------------------------------------------------------------
  // What survives a round trip
  // ---------------------------------------------------------------------

  predicate NoHeading(text: string) {
    forall l :: l in Split(text) ==> !IsH2(l)
  }

  /** The fields that are printed within one line are one line each. */
  predicate OneLineCase(c: Case) {
    && AllOneLine([c.title, c.date, c.severity, c.chipId, c.qid, c.status, c.issueId])
    && AllOneLine(c.lessons) && AllOneLine(c.figurePaths) && AllOneLine(c.imageUrls)
  }

  /** No body holds a second-level heading of its own. */
  predicate NoInnerHeading(c: Case) {
    NoHeading(c.symptom) && NoHeading(c.rootCause) && NoHeading(c.resolution)
  }

  predicate Printable(c: Case) {
    OneLineCase(c) && NoInnerHeading(c)
  }

  function NormalLessons(lessons: seq<string>): seq<string> {
    if lessons == [] then []
    else (if AllSpace(lessons[0]) then [] else [StripRight(lessons[0])]) + NormalLessons(lessons[1..])
  }

  function Normalised(c: Case): Parsed {
    Parsed(Strip(c.title), Strip(c.date), if c.severity == "" then "warning" else Strip(c.severity),
           Strip(c.chipId), Strip(c.qid), if c.status == "" then "resolved" else Strip(c.status),
           Strip(c.symptom), Strip(c.rootCause), Strip(c.resolution), NormalLessons(c.lessons))
  }

  /** The fields of a case that the parser reads back. */
  function Fields(c: Case): Parsed {
    Parsed(c.title, c.date, c.severity, c.chipId, c.qid, c.status, c.symptom, c.rootCause, c.resolution, c.lessons)
  }

  /** A lesson the list syntax can carry: visible text with no whitespace after it. */
  predicate PlainLesson(l: string) {
    l != "" && !IsSpace(l[|l| - 1])
  }

  predicate Faithful(c: Case) {
    && Trimmed(c.title) && Trimmed(c.date) && Trimmed(c.chipId) && Trimmed(c.qid)
    && c.severity != "" && Trimmed(c.severity) && c.status != "" && Trimmed(c.status)
    && Trimmed(c.symptom) && Trimmed(c.rootCause) && Trimmed(c.resolution)
    && (forall l :: l in c.lessons ==> PlainLesson(l))
  }
}

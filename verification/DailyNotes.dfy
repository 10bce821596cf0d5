/**
 Daily notes: one Markdown file a day, in which every writer keeps a section of its own. A
 section runs from its heading to the next heading of level one or two.
 */
module DailyNotes {
  import opened Wrappers
  import opened Texts

  const ACTIVITY := "## 活动记录"
  const EMPTY_CONTENT := "（暂无可写入内容。）"
  const EMPTY_ENTRY := "（空摘要。）"

  function RootHeading(date: string): string {
    "# " + date + " 每日摘要"
  }

  /** What the activity section was called before. */
  function LegacyHeading(date: string): string {
    "## " + date + " 工作日记"
  }

  /** A heading of level one or two, in column 0. */
  predicate IsHeading(line: string) {
    && |line| >= 2 && line[0] == '#'
    && (line[1] == ' ' || (|line| >= 3 && line[1] == '#' && line[2] == ' '))
  }

  /** What headings of sections are. */
  predicate SectionHeading(h: string) {
    "## " <= h && Line(h) && Trimmed(h)
  }

  function NormalizeSectionHeading(value: string): (h: Option<string>)
    ensures h.Some? ==> SectionHeading(h.value)
  {
    var title := Trim(value);
    if title == "" || '\n' in title || '\r' in title then None
    else if "## " <= title then Some(title)
    else Some("## " + title)
  }

  /** The headings under which a writer finds its section. */
  function OwnHeadings(date: string, h: string): set<string> {
    if h == ACTIVITY then {h, LegacyHeading(date)} else {h}
  }

  // ---------------------------------------------------------------- sections as ranges of lines

  ghost predicate IsFirst(lines: seq<string>, heads: set<string>, i: nat) {
    && i <= |lines| && (forall j :: 0 <= j < i ==> Trim(lines[j]) !in heads)
    && (i < |lines| ==> Trim(lines[i]) in heads)
  }

  function FirstOf(lines: seq<string>, heads: set<string>): (i: nat)
    ensures i <= |lines|
    decreases |lines|
  {
    if lines == [] || Trim(lines[0]) in heads then 0 else 1 + FirstOf(lines[1..], heads)
  }

  ghost predicate IsEnd(lines: seq<string>, from: nat, i: nat) {
    && from <= i <= |lines| && (forall j :: from <= j < i ==> !IsHeading(lines[j]))
    && (i < |lines| ==> IsHeading(lines[i]))
  }

  function EndOf(lines: seq<string>, from: nat): (i: nat)
    requires from <= |lines|
    ensures from <= i <= |lines|
    decreases |lines| - from
  {
    if from == |lines| || IsHeading(lines[from]) then from else EndOf(lines, from + 1)
  }

  function SectionOf(lines: seq<string>, h: string): string {
    TextAfter(lines, FirstOf(lines, {h}))
  }

  function TextAfter(lines: seq<string>, start: nat): string
    requires start <= |lines|
  {
    if start == |lines| then "" else Trim(Join(lines[start + 1..EndOf(lines, start + 1)]))
  }

  function Section(existing: string, h: string): string {
    SectionOf(Split(Trim(existing)), h)
  }

  function Root(existing: string, date: string): string {
    if Trim(existing) == "" then RootHeading(date) else Trim(existing)
  }

  function Replaced(existing: string, date: string, h: string, content: string): string {
    var root := Root(existing, date);
    ReplacedIn(root, Split(root), OwnHeadings(date, h), h, content)
  }

  function ReplacedIn(root: string, lines: seq<string>, heads: set<string>, h: string, content: string): string {
    var start := FirstOf(lines, heads);
    if start == |lines| then root + "\n\n" + h + "\n\n" + Trim(content)
    else Trim(Join(lines[..start] + [h, "", Trim(content)] + lines[EndOf(lines, start + 1)..]))
  }

  method SectionEnd(lines: seq<string>, start: nat) returns (end: nat)
    requires start < |lines|
    ensures end == EndOf(lines, start + 1)
  {
    end := start + 1;
    while end < |lines| && !IsHeading(lines[end])
      invariant start + 1 <= end <= |lines|
      invariant forall j :: start + 1 <= j < end ==> !IsHeading(lines[j])
    {
      end := end + 1;
    }
    EndUnique(lines, start + 1, end);
  }

  method ReadDailySection(existing: string, h: string) returns (r: string)
    ensures r == Section(existing, h)
  {
    r := ReadLines(Split(Trim(existing)), h);
  }

  method ReadLines(lines: seq<string>, h: string) returns (r: string)
    ensures r == SectionOf(lines, h)
  {
    var start := FirstOf(lines, {h});
    if start == |lines| {
      return "";
    }
    var end := SectionEnd(lines, start);
    r := Trim(Join(lines[start + 1..end]));
    assert r == TextAfter(lines, start);
  }

  method ReplaceDailySection(existing: string, date: string, h: string, content: string) returns (r: string)
    ensures r == Replaced(existing, date, h, content)
  {
    var root := Trim(existing);
    if root == "" {
      root := RootHeading(date);
    }
    assert root == Root(existing, date);
    r := ReplaceLines(root, Split(root), OwnHeadings(date, h), h, content);
  }

  method ReplaceLines(root: string, lines: seq<string>, heads: set<string>, h: string, content: string) returns (r: string)
    ensures r == ReplacedIn(root, lines, heads, h, content)
  {
    var start := FirstOf(lines, heads);
    if start == |lines| {
      return root + "\n\n" + h + "\n\n" + Trim(content);
    }
    var end := SectionEnd(lines, start);
    r := Trim(Join(lines[..start] + [h, "", Trim(content)] + lines[end..]));
  }

  lemma {:induction false} FirstIs(lines: seq<string>, heads: set<string>)
    ensures IsFirst(lines, heads, FirstOf(lines, heads))
    decreases lines
  {
    if lines != [] && Trim(lines[0]) !in heads {
      FirstIs(lines[1..], heads);
      assert forall j :: 1 <= j < |lines| ==> lines[j] == lines[1..][j - 1];
    }
  }

  lemma {:induction false} EndIs(lines: seq<string>, from: nat)
    requires from <= |lines|
    ensures IsEnd(lines, from, EndOf(lines, from))
    decreases |lines| - from
  {
    if from < |lines| && !IsHeading(lines[from]) {
      EndIs(lines, from + 1);
    }
  }

  lemma FirstUnique(lines: seq<string>, heads: set<string>, i: nat)
    requires IsFirst(lines, heads, i)
    ensures FirstOf(lines, heads) == i
  {
    FirstIs(lines, heads);
  }

  lemma EndUnique(lines: seq<string>, from: nat, i: nat)
    requires IsEnd(lines, from, i)
    ensures EndOf(lines, from) == i
  {
    EndIs(lines, from);
  }

  // ---------------------------------------------------------------- the lines of a replaced note

  /** No white space at either end of the whole. */
  predicate Tidy(lines: seq<string>) {
    && lines != [] && lines[0] != "" && !IsSpace(lines[0][0])
    && var last := lines[|lines| - 1]; last != "" && !IsSpace(last[|last| - 1])
  }

  lemma {:induction false} JoinEnds(lines: seq<string>)
    requires lines != []
    ensures lines[0] != "" ==> Join(lines) != "" && Join(lines)[0] == lines[0][0]
    ensures lines[0] == "" && |lines| > 1 ==> Join(lines) != "" && Join(lines)[0] == '\n'
    ensures var last := lines[|lines| - 1]; last != "" ==> Join(lines) != "" && Join(lines)[|Join(lines)| - 1] == last[|last| - 1]
    ensures lines[|lines| - 1] == "" && |lines| > 1 ==> Join(lines) != "" && Join(lines)[|Join(lines)| - 1] == '\n'
  {
    if |lines| > 1 {
      JoinEnds(lines[1..]);
    }
  }

  lemma TidyTrimmed(lines: seq<string>)
    requires lines != []
    ensures Tidy(lines) <==> Join(lines) != "" && Trimmed(Join(lines))
  {
    JoinEnds(lines);
  }

  /** A text in the place of a line stands for its lines. */
  lemma JoinSpliced(a: seq<string>, c: string, b: seq<string>)
    requires a != []
    ensures Join(a + [c] + b) == Join(a + Split(c) + b)
  {
    JoinSplit(c);
    JoinOn(a, [c]);
    JoinOn(a, Split(c));
    if b == [] {
      assert a + [c] + b == a + [c] && a + Split(c) + b == a + Split(c);
    } else {
      JoinOn(a + [c], b);
      JoinOn(a + Split(c), b);
    }
  }

  /** The lines of a note whose section `h` says `c`. */
  function Assembled(before: seq<string>, h: string, c: string, after: seq<string>): seq<string> {
    before + [h] + Rest(c, after)
  }

  function Rest(c: string, after: seq<string>): seq<string> {
    if c == "" && after == [] then [] else [""] + Split(c) + after
  }

  /** The lines before the section, and those after it. */
  function Before(lines: seq<string>, heads: set<string>): seq<string> {
    var start := FirstOf(lines, heads);
    if start < |lines| then lines[..start] else lines + [""]
  }

  function After(lines: seq<string>, heads: set<string>): seq<string> {
    var start := FirstOf(lines, heads);
    if start < |lines| then lines[EndOf(lines, start + 1)..] else []
  }

  predicate TidyStart(lines: seq<string>) {
    lines == [] || (lines[0] != "" && !IsSpace(lines[0][0]))
  }

  predicate TidyEnd(lines: seq<string>) {
    lines == [] || var last := lines[|lines| - 1]; last != "" && !IsSpace(last[|last| - 1])
  }

  lemma RootTidy(existing: string, date: string)
    ensures Tidy(Split(Root(existing, date)))
    ensures Join(Split(Root(existing, date))) == Root(existing, date)
  {
    JoinSplit(Root(existing, date));
    TidyTrimmed(Split(Root(existing, date)));
  }

  lemma AroundTidy(lines: seq<string>, heads: set<string>)
    requires Tidy(lines) && Lines(lines)
    ensures TidyStart(Before(lines, heads)) && TidyEnd(After(lines, heads))
    ensures Lines(Before(lines, heads)) && Lines(After(lines, heads))
  {
  }

  lemma TextTidy(c: string)
    requires Trimmed(c) && c != ""
    ensures Tidy(Split(c))
  {
    JoinSplit(c);
    TidyTrimmed(Split(c));
  }

  lemma AssembledLines(before: seq<string>, h: string, c: string, after: seq<string>)
    requires Line(h) && Lines(before) && Lines(after)
    ensures Lines(Assembled(before, h, c, after))
  {
  }

  lemma RestTidy(c: string, after: seq<string>)
    requires TidyEnd(after) && Trimmed(c)
    ensures TidyEnd(Rest(c, after))
  {
    if after == [] && c != "" {
      TextTidy(c);
      ConcatEnds([""], Split(c));
      assert Rest(c, after) == [""] + Split(c);
    } else {
      ConcatEnds([""] + Split(c), after);
    }
  }

  lemma AssembledTidy(before: seq<string>, h: string, c: string, after: seq<string>)
    requires TidyStart(before) && TidyEnd(after) && SectionHeading(h) && Trimmed(c)
    ensures Tidy(Assembled(before, h, c, after))
  {
    RestTidy(c, after);
    ConcatEnds(before + [h], Rest(c, after));
    assert before == [] ==> before + [h] == [h];
  }

  lemma JoinMore(a: seq<string>, s: string)
    requires a != []
    ensures Join(a + [s]) == Join(a) + "\n" + s
  {
    JoinOn(a, [s]);
  }

  lemma JoinBlank(upTo: seq<string>)
    requires upTo != []
    ensures Trim(Join(upTo + [""] + [""])) == Trim(Join(upTo))
  {
    JoinMore(upTo, "");
    JoinMore(upTo + [""], "");
    var s := Join(upTo);
    assert Join(upTo + [""]) == s + ['\n'];
    assert Join(upTo + [""] + [""]) == s + ['\n'] + ['\n'];
    TrimAround(s, '\n');
    TrimAround(s + ['\n'], '\n');
  }

  /** Whether the content is put in as one piece or line by line, trimming gives the same note. */
  lemma AssembledJoin(before: seq<string>, h: string, c: string, after: seq<string>)
    ensures Trim(Join(before + [h, "", c] + after)) == Trim(Join(Assembled(before, h, c, after)))
  {
    var upTo := before + [h];
    Assoc(before, [h], ["", c]);
    Assoc(upTo, [""], [c]);
    assert [h] + ["", c] == [h, "", c] && [""] + [c] == ["", c];
    if c == "" && after == [] {
      assert upTo + [""] + [c] + after == upTo + [""] + [""];
      assert Assembled(before, h, c, after) == upTo;
      JoinBlank(upTo);
    } else {
      JoinSpliced(upTo + [""], c, after);
      Assoc(upTo, [""], Split(c));
      Assoc(upTo, [""] + Split(c), after);
    }
  }

  /** The lines of the saved note. */
  function NewLines(lines: seq<string>, heads: set<string>, h: string, c: string): seq<string> {
    Assembled(Before(lines, heads), h, c, After(lines, heads))
  }

  lemma Appended(lines: seq<string>, h: string, c: string)
    requires lines != []
    ensures Join(lines) + "\n\n" + h + "\n\n" + c == Join(lines + [""] + [h, "", c] + [])
  {
    JoinMore(lines, "");
    JoinMore(lines + [""], h);
    JoinMore(lines + [""] + [h], "");
    JoinMore(lines + [""] + [h] + [""], c);
    assert lines + [""] + [h, "", c] + [] == lines + [""] + [h] + [""] + [c];
  }

  /** The saved note is made of these lines. */
  lemma Rendered(existing: string, date: string, h: string, content: string)
    requires SectionHeading(h)
    ensures var ls := NewLines(Split(Root(existing, date)), OwnHeadings(date, h), h, Trim(content));
      Tidy(ls) && Lines(ls) && Trim(Replaced(existing, date, h, content)) == Join(ls)
  {
    var heads, c := OwnHeadings(date, h), Trim(content);
    var lines := Split(Root(existing, date));
    RootTidy(existing, date);
    AroundTidy(lines, heads);
    AssembledTidy(Before(lines, heads), h, c, After(lines, heads));
    AssembledLines(Before(lines, heads), h, c, After(lines, heads));
    TidyTrimmed(NewLines(lines, heads, h, c));
    AssembledJoin(Before(lines, heads), h, c, After(lines, heads));
    Appended(lines, h, c);
  }

  /** What is saved after a change. */
  function Saved(text: string): string {
    Trim(text) + "\n"
  }

  // ---------------------------------------------------------------- reading back

  predicate NoHeadings(lines: seq<string>) {
    forall i :: 0 <= i < |lines| ==> !IsHeading(lines[i])
  }

  /** No heading is indented. */
  predicate ColumnZero(lines: seq<string>) {
    forall i :: 0 <= i < |lines| ==> (IsHeading(TrimStart(lines[i])) ==> IsHeading(lines[i]))
  }

  ghost predicate Nowhere(lines: seq<string>, h: string) {
    forall i :: 0 <= i < |lines| ==> Trim(lines[i]) != h
  }

  lemma FirstAt(before: seq<string>, line: string, rest: seq<string>, heads: set<string>)
    requires Trim(line) in heads && forall j :: 0 <= j < |before| ==> Trim(before[j]) !in heads
    ensures FirstOf(before + [line] + rest, heads) == |before|
  {
    var ls := before + [line] + rest;
    assert forall j :: 0 <= j < |before| ==> ls[j] == before[j];
    FirstUnique(ls, heads, |before|);
  }

  lemma EndAt(before: seq<string>, rest: seq<string>, k: nat)
    requires IsEnd(rest, 0, k)
    ensures EndOf(before + rest, |before|) == |before| + k
    ensures (before + rest)[|before|..|before| + k] == rest[..k] && (before + rest)[|before| + k..] == rest[k..]
  {
    var ls, n := before + rest, |before|;
    assert forall j :: n <= j < n + |rest| ==> ls[j] == rest[j - n];
    EndUnique(ls, n, n + k);
  }

  /** A section is what follows the first line with its heading. */
  lemma SectionAt(before: seq<string>, h: string, rest: seq<string>, k: nat)
    requires Nowhere(before, h) && Trimmed(h) && IsEnd(rest, 0, k)
    ensures SectionOf(before + [h] + rest, h) == Trim(Join(rest[..k]))
  {
    FirstAt(before, h, rest, {h});
    EndAt(before + [h], rest, k);
  }

  /** Where the content has no heading line, the section goes on to the next one after it. */
  lemma BodyEnd(lines: seq<string>, after: seq<string>)
    requires after != [] ==> IsHeading(after[0])
    ensures IsEnd([""] + lines + after, 0, 1 + EndOf(lines, 0))
    ensures ([""] + lines + after)[..1 + EndOf(lines, 0)] == [""] + lines[..EndOf(lines, 0)]
  {
    var ls := [""] + lines + after;
    EndIs(lines, 0);
    assert forall j :: 0 <= j < |lines| ==> ls[1 + j] == lines[j];
    assert after != [] ==> ls[1 + |lines|] == after[0];
    assert forall j :: 1 <= j < 1 + EndOf(lines, 0) ==> ls[j] == lines[j - 1];
  }

  lemma TrimLeading(lines: seq<string>)
    ensures Trim(Join([""] + lines)) == Trim(Join(lines))
  {
  }

  /** The section reads as the content up to its first heading line. */
  lemma SectionOfAssembled(before: seq<string>, h: string, c: string, after: seq<string>)
    requires Nowhere(before, h) && SectionHeading(h) && (after != [] ==> IsHeading(after[0]))
    ensures SectionOf(Assembled(before, h, c, after), h) == Trim(Join(Split(c)[..EndOf(Split(c), 0)]))
  {
    if c == "" && after == [] {
      SectionAt(before, h, [], 0);
      assert before + [h] + [] == Assembled(before, h, c, after);
      assert Split(c) == [""] && EndOf([""], 0) == 1;
      assert Split(c)[..1] == [""];
    } else {
      BodyEnd(Split(c), after);
      SectionAt(before, h, [""] + Split(c) + after, 1 + EndOf(Split(c), 0));
      TrimLeading(Split(c)[..EndOf(Split(c), 0)]);
    }
  }

  /** Reading only up to a heading line loses something. */
  lemma UpToHeading(c: string)
    requires Trimmed(c)
    ensures Trim(Join(Split(c)[..EndOf(Split(c), 0)])) == c <==> NoHeadings(Split(c))
  {
    var ls, k := Split(c), EndOf(Split(c), 0);
    JoinSplit(c);
    EndIs(ls, 0);
    if k == |ls| {
      assert ls[..k] == ls;
    } else if k > 0 {
      assert ls == ls[..k] + ls[k..];
      JoinOn(ls[..k], ls[k..]);
    } else {
      JoinEnds(ls);
    }
  }

  lemma AroundSection(lines: seq<string>, heads: set<string>, h: string)
    requires h in heads && "" !in heads
    ensures Nowhere(Before(lines, heads), h)
    ensures After(lines, heads) != [] ==> IsHeading(After(lines, heads)[0])
  {
    FirstIs(lines, heads);
    if FirstOf(lines, heads) < |lines| {
      EndIs(lines, FirstOf(lines, heads) + 1);
    }
  }

  lemma LinesOfSaved(existing: string, date: string, h: string, content: string)
    requires SectionHeading(h)
    ensures var ls := NewLines(Split(Root(existing, date)), OwnHeadings(date, h), h, Trim(content));
      && Trim(Saved(Replaced(existing, date, h, content))) == Join(ls) != ""
      && Split(Trim(Saved(Replaced(existing, date, h, content)))) == ls
  {
    var ls := NewLines(Split(Root(existing, date)), OwnHeadings(date, h), h, Trim(content));
    Rendered(existing, date, h, content);
    TidyTrimmed(ls);
    SplitJoin(ls);
    TrimAround(Trim(Replaced(existing, date, h, content)), '\n');
  }

  lemma NewSection(lines: seq<string>, heads: set<string>, h: string, c: string)
    requires h in heads && "" !in heads && SectionHeading(h) && Trimmed(c)
    ensures SectionOf(NewLines(lines, heads, h, c), h) == FirstPart(c)
  {
    AroundSection(lines, heads, h);
    SectionOfAssembled(Before(lines, heads), h, c, After(lines, heads));
  }

  /** What stands before the first heading line. */
  function FirstPart(c: string): string {
    Trim(Join(Split(c)[..EndOf(Split(c), 0)]))
  }

  /** After a section is replaced it reads as the new content up to the first heading line in it. */
  lemma ReadsFirstPart(existing: string, date: string, h: string, content: string)
    requires SectionHeading(h)
    ensures Section(Saved(Replaced(existing, date, h, content)), h) == FirstPart(Trim(content))
  {
    LinesOfSaved(existing, date, h, content);
    NewSection(Split(Root(existing, date)), OwnHeadings(date, h), h, Trim(content));
  }

  /** It reads back as that content exactly if that has no heading line of its own. */
  lemma ReadsBack(existing: string, date: string, h: string, content: string)
    requires SectionHeading(h)
    ensures Section(Saved(Replaced(existing, date, h, content)), h) == Trim(content) <==> NoHeadings(Split(Trim(content)))
  {
    ReadsFirstPart(existing, date, h, content);
    UpToHeading(Trim(content));
  }

  lemma FirstPartIs(line: string, heading: string)
    requires Line(line) && Trimmed(line) && !IsHeading(line) && Line(heading) && IsHeading(heading)
    ensures FirstPart(line + "\n" + heading) == line
  {
    SplitOn(line, heading);
    SplitLine(line);
    SplitLine(heading);
    var ls := Split(line + "\n" + heading);
    assert ls == [line, heading];
    EndUnique(ls, 0, 1);
    assert ls[..1] == [line] && Join([line]) == line;
  }

  lemma TrimmedLines(a: string, b: string)
    requires Trimmed(a) && Trimmed(b) && a != "" && b != ""
    ensures Trim(a + "\n" + b) == a + "\n" + b
  {
    var s := a + "\n" + b;
    assert s[0] == a[0] && s[|s| - 1] == b[|b| - 1];
  }

  /** A heading line within the content ends the section. */
  lemma HeadingCuts(existing: string, date: string, h: string, line: string, heading: string)
    requires SectionHeading(h) && Line(line) && Trimmed(line) && line != "" && !IsHeading(line)
    requires Line(heading) && Trimmed(heading) && IsHeading(heading)
    ensures Section(Saved(Replaced(existing, date, h, line + "\n" + heading)), h) == line
  {
    ReadsFirstPart(existing, date, h, line + "\n" + heading);
    TrimmedLines(line, heading);
    FirstPartIs(line, heading);
  }

  const LOG := "## Log"
  const DONE := "done"
  const NEXT := "## next"

  lemma ReadsBackExample(date: string)
    ensures Section(Saved(Replaced("", date, LOG, DONE + "\n" + NEXT)), LOG) == DONE
  {
    HeadingCuts("", date, LOG, DONE, NEXT);
  }

  // ---------------------------------------------------------------- the other sections

  /** A line that names a section starts one, as long as no heading is indented. */
  lemma NamedHeading(lines: seq<string>, i: nat)
    requires ColumnZero(lines) && i < |lines| && "## " <= Trim(lines[i])
    ensures IsHeading(lines[i])
  {
  }

  /** The lines up to the next heading. */
  function UpTo(lines: seq<string>): seq<string>
    decreases lines
  {
    if lines == [] || IsHeading(lines[0]) then [] else [lines[0]] + UpTo(lines[1..])
  }

  /** The lines of a section, found by going through the note. */
  function SectionLines(lines: seq<string>, h: string): seq<string>
    decreases lines
  {
    if lines == [] then []
    else if Trim(lines[0]) == h then UpTo(lines[1..])
    else SectionLines(lines[1..], h)
  }

  lemma {:induction false} EndByLines(lines: seq<string>, from: nat)
    requires from <= |lines|
    ensures lines[from..EndOf(lines, from)] == UpTo(lines[from..])
    decreases |lines| - from
  {
    if from < |lines| && !IsHeading(lines[from]) {
      EndByLines(lines, from + 1);
      assert lines[from..][1..] == lines[from + 1..];
      assert lines[from..EndOf(lines, from)] == [lines[from]] + lines[from + 1..EndOf(lines, from)];
    }
  }

  lemma {:induction false} FirstByLines(lines: seq<string>, h: string)
    ensures var i := FirstOf(lines, {h}); SectionLines(lines, h) == if i == |lines| then [] else UpTo(lines[i + 1..])
    decreases lines
  {
    if lines != [] && Trim(lines[0]) != h {
      FirstByLines(lines[1..], h);
    }
  }

  /** Both ways of finding a section agree. */
  lemma SectionByLines(lines: seq<string>, h: string)
    ensures SectionOf(lines, h) == Trim(Join(SectionLines(lines, h)))
  {
    FirstByLines(lines, h);
    TextByLines(lines, FirstOf(lines, {h}), SectionLines(lines, h));
  }

  lemma TextByLines(lines: seq<string>, start: nat, section: seq<string>)
    requires start <= |lines| && section == if start == |lines| then [] else UpTo(lines[start + 1..])
    ensures TextAfter(lines, start) == Trim(Join(section))
  {
    if start < |lines| {
      EndByLines(lines, start + 1);
    }
  }

  lemma {:induction false} UpToLonger(lines: seq<string>, line: string, rest: seq<string>)
    requires IsHeading(line)
    ensures UpTo(lines + [line] + rest) == UpTo(lines)
    decreases lines
  {
    if lines == [] {
      assert (lines + [line] + rest)[0] == line;
    } else {
      assert (lines + [line] + rest)[1..] == lines[1..] + [line] + rest;
      UpToLonger(lines[1..], line, rest);
    }
  }

  lemma {:induction false} UpToBlank(lines: seq<string>)
    ensures UpTo(lines + [""]) == UpTo(lines) || UpTo(lines + [""]) == UpTo(lines) + [""]
    decreases lines
  {
    if lines == [] {
      assert (lines + [""])[1..] == [];
    } else {
      assert (lines + [""])[1..] == lines[1..] + [""];
      UpToBlank(lines[1..]);
    }
  }

  /** Lines that do not name a section do not matter for what follows them. */
  lemma {:induction false} SectionAfter(before: seq<string>, rest: seq<string>, h: string)
    requires Nowhere(before, h)
    ensures SectionLines(before + rest, h) == SectionLines(rest, h)
    decreases before
  {
    if before == [] {
      assert before + rest == rest;
    } else {
      assert Trim(before[0]) != h;
      assert (before + rest)[1..] == before[1..] + rest;
      assert forall j :: 0 <= j < |before[1..]| ==> before[1..][j] == before[j + 1];
      SectionAfter(before[1..], rest, h);
    }
  }

  /** A section before a heading line does not depend on what follows that. */
  lemma {:induction false} SectionBefore(before: seq<string>, line: string, rest: seq<string>, h: string)
    requires IsHeading(line) && !Nowhere(before, h)
    ensures SectionLines(before + [line] + rest, h) == SectionLines(before, h)
    decreases before
  {
    var ls := before + [line] + rest;
    assert ls[1..] == before[1..] + [line] + rest && ls[0] == before[0];
    if Trim(before[0]) == h {
      UpToLonger(before[1..], line, rest);
    } else {
      var i :| 0 <= i < |before| && Trim(before[i]) == h;
      assert before[1..][i - 1] == before[i];
      SectionBefore(before[1..], line, rest, h);
    }
  }

  /** A blank line at the end of a note is not read. */
  lemma {:induction false} SectionBlank(lines: seq<string>, h: string)
    requires h != ""
    ensures var was, now := SectionLines(lines, h), SectionLines(lines + [""], h);
      now == was || now == was + [""]
    decreases lines
  {
    if lines == [] {
      assert (lines + [""])[1..] == [];
    } else {
      assert (lines + [""])[1..] == lines[1..] + [""];
      if Trim(lines[0]) == h {
        UpToBlank(lines[1..]);
      } else {
        SectionBlank(lines[1..], h);
      }
    }
  }

  lemma TrimTrailing(lines: seq<string>)
    ensures Trim(Join(lines + [""])) == Trim(Join(lines))
  {
    if lines == [] {
      assert lines + [""] == [""];
    } else {
      JoinMore(lines, "");
      TrimAround(Join(lines), '\n');
      assert Join(lines + [""]) == Join(lines) + ['\n'];
    }
  }

  ghost predicate SectionNames(heads: set<string>) {
    forall x :: x in heads ==> "## " <= x && Trimmed(x)
  }

  lemma NamedNowhere(before: seq<string>, h: string, rest: seq<string>, other: string)
    requires Trim(h) != other && Nowhere(before, other) && Nowhere(rest, other)
    ensures SectionLines(before + [h] + rest, other) == SectionLines(before, other)
  {
    SectionAfter(before, [h] + rest, other);
    assert before + ([h] + rest) == before + [h] + rest;
    SectionAfter([h] + rest, [], other);
    assert [h] + rest + [] == [h] + rest;
    SectionAfter(before, [], other);
    assert before + [] == before;
  }

  /** After a section is appended, the others read as before. */
  lemma OthersAppended(lines: seq<string>, h: string, rest: seq<string>, other: string)
    requires SectionHeading(h) && SectionHeading(other) && other != h && Nowhere(rest, other)
    ensures Trim(Join(SectionLines(lines + [""] + [h] + rest, other))) == Trim(Join(SectionLines(lines, other)))
  {
    var before := lines + [""];
    SectionBlank(lines, other);
    TrimTrailing(SectionLines(lines, other));
    if Nowhere(before, other) {
      NamedNowhere(before, h, rest, other);
    } else {
      SectionBefore(before, h, rest, other);
    }
  }

  /** A section before the replaced one reads as before. */
  lemma OthersBefore(lines: seq<string>, start: nat, h: string, rest: seq<string>, other: string)
    requires ColumnZero(lines) && start < |lines| && "## " <= Trim(lines[start])
    requires SectionHeading(h) && !Nowhere(lines[..start], other)
    ensures SectionLines(lines[..start] + [h] + rest, other) == SectionLines(lines, other)
  {
    NamedHeading(lines, start);
    SectionBefore(lines[..start], h, rest, other);
    SectionBefore(lines[..start], lines[start], lines[start + 1..], other);
    assert lines == lines[..start] + [lines[start]] + lines[start + 1..];
  }

  /** None of the lines that make way names another section. */
  lemma OldLines(lines: seq<string>, start: nat, other: string)
    requires ColumnZero(lines) && start < |lines| && Trim(lines[start]) != other
    requires SectionHeading(other) && Nowhere(lines[..start], other)
    ensures Nowhere(lines[..EndOf(lines, start + 1)], other)
  {
    EndIs(lines, start + 1);
    forall j | 0 <= j < EndOf(lines, start + 1) ensures Trim(lines[j]) != other {
      if j < start {
        assert lines[..start][j] == lines[j];
      } else if j > start && Trim(lines[j]) == other {
        NamedHeading(lines, j);
        assert false;
      }
    }
  }

  lemma NowhereOn(a: seq<string>, b: seq<string>, h: string)
    requires Nowhere(a, h) && Nowhere(b, h)
    ensures Nowhere(a + b, h)
  {
  }

  lemma NewAfter(before: seq<string>, h: string, middle: seq<string>, after: seq<string>, other: string)
    requires Nowhere(before, other) && Trim(h) != other && Nowhere(middle, other)
    ensures SectionLines(before + [h] + (middle + after), other) == SectionLines(after, other)
  {
    assert Nowhere([h], other);
    NowhereOn(before, [h], other);
    NowhereOn(before + [h], middle, other);
    SectionAfter(before + [h] + middle, after, other);
    Assoc(before + [h], middle, after);
  }

  lemma OldAfter(lines: seq<string>, start: nat, other: string)
    requires ColumnZero(lines) && start < |lines| && Trim(lines[start]) != other
    requires SectionHeading(other) && Nowhere(lines[..start], other)
    ensures SectionLines(lines, other) == SectionLines(lines[EndOf(lines, start + 1)..], other)
  {
    var end := EndOf(lines, start + 1);
    OldLines(lines, start, other);
    SectionAfter(lines[..end], lines[end..], other);
    assert lines == lines[..end] + lines[end..];
  }

  /** What takes the place of the section does not name another one either. */
  lemma RestNames(c: string, after: seq<string>, other: string)
    requires Nowhere(Split(c), other) && other != ""
    ensures exists middle :: Nowhere(middle, other) && Rest(c, after) == middle + after
  {
    if c == "" && after == [] {
      assert Rest(c, after) == [] + after && Nowhere([], other);
    } else {
      assert Rest(c, after) == ([""] + Split(c)) + after && Nowhere([""] + Split(c), other);
    }
  }

  lemma OthersKept(lines: seq<string>, heads: set<string>, h: string, c: string, other: string)
    requires ColumnZero(lines) && SectionNames(heads) && h in heads && other !in heads
    requires SectionHeading(h) && SectionHeading(other) && Nowhere(Split(c), other)
    ensures Trim(Join(SectionLines(NewLines(lines, heads, h, c), other))) == Trim(Join(SectionLines(lines, other)))
  {
    var start, after := FirstOf(lines, heads), After(lines, heads);
    RestNames(c, after, other);
    FirstIs(lines, heads);
    var middle :| Nowhere(middle, other) && Rest(c, after) == middle + after;
    if start == |lines| {
      assert middle + after == middle;
      OthersAppended(lines, h, middle, other);
    } else if Nowhere(lines[..start], other) {
      NewAfter(lines[..start], h, middle, after, other);
      OldAfter(lines, start, other);
    } else {
      OthersBefore(lines, start, h, Rest(c, after), other);
    }
  }

  lemma OwnNames(date: string, h: string)
    requires SectionHeading(h)
    ensures SectionNames(OwnHeadings(date, h))
  {
  }

  /** What an empty note starts with is no section. */
  lemma RootLine(date: string, other: string)
    requires Line(date) && SectionHeading(other)
    ensures Split(RootHeading(date)) == [RootHeading(date)] && ColumnZero([RootHeading(date)])
    ensures SectionOf([RootHeading(date)], other) == "" == SectionOf([""], other)
  {
    var root := RootHeading(date);
    SplitLine(root);
    assert root[1] == ' ' && other[1] == '#';
    assert FirstOf([root], {other}) == 1 + FirstOf([root][1..], {other}) == 1;
    assert FirstOf([""], {other}) == 1 + FirstOf([""][1..], {other}) == 1;
  }

  /**
   Replacing a section leaves every other one as it was, if no heading of the note is indented
   and the new content does not itself name the other section. The activity section absorbs
   the section it was called before.
   */
  lemma OtherSectionsKept(existing: string, date: string, h: string, content: string, other: string)
    requires Line(date) && SectionHeading(h) && SectionHeading(other) && other !in OwnHeadings(date, h)
    requires ColumnZero(Split(Trim(existing))) && Nowhere(Split(Trim(content)), other)
    ensures Section(Saved(Replaced(existing, date, h, content)), other) == Section(existing, other)
  {
    LinesOfSaved(existing, date, h, content);
    OwnNames(date, h);
    RootLine(date, other);
    var lines, heads := Split(Root(existing, date)), OwnHeadings(date, h);
    OthersKept(lines, heads, h, Trim(content), other);
    SectionByLines(NewLines(lines, heads, h, Trim(content)), other);
    SectionByLines(lines, other);
  }

  // ---------------------------------------------------------------- writing again

  lemma FirstBefore(lines: seq<string>, heads: set<string>)
    requires "" !in heads
    ensures forall j :: 0 <= j < |Before(lines, heads)| ==> Trim(Before(lines, heads)[j]) !in heads
  {
    FirstIs(lines, heads);
  }

  /** Without heading lines in the content, the section ends where the lines after it begin. */
  lemma RestEnd(c: string, after: seq<string>)
    requires NoHeadings(Split(c)) && (after != [] ==> IsHeading(after[0]))
    ensures var k := |Rest(c, after)| - |after|; IsEnd(Rest(c, after), 0, k) && Rest(c, after)[k..] == after
  {
  }

  lemma AssembledAgain(before: seq<string>, h: string, c: string, after: seq<string>, heads: set<string>)
    requires Trim(h) in heads && NoHeadings(Split(c)) && (after != [] ==> IsHeading(after[0]))
    requires forall j :: 0 <= j < |before| ==> Trim(before[j]) !in heads
    ensures var ls := Assembled(before, h, c, after);
      FirstOf(ls, heads) == |before| < |ls| && ls[..|before|] == before && ls[EndOf(ls, |before| + 1)..] == after
  {
    FirstAt(before, h, Rest(c, after), heads);
    RestEnd(c, after);
    EndAt(before + [h], Rest(c, after), |Rest(c, after)| - |after|);
  }

  /** Putting the same content in again finds and renders the same lines. */
  lemma NewLinesAgain(lines: seq<string>, heads: set<string>, h: string, c: string)
    requires SectionNames(heads) && h in heads && SectionHeading(h) && NoHeadings(Split(c))
    ensures NewLines(NewLines(lines, heads, h, c), heads, h, c) == NewLines(lines, heads, h, c)
  {
    var before, after := Before(lines, heads), After(lines, heads);
    AroundSection(lines, heads, h);
    FirstBefore(lines, heads);
    AssembledAgain(before, h, c, after, heads);
    var ls := NewLines(lines, heads, h, c);
    assert Before(ls, heads) == before && After(ls, heads) == after;
  }

  /** Writing the same content twice leaves the same file as writing it once. */
  lemma ReplaceIdempotent(existing: string, date: string, h: string, content: string, again: string)
    requires SectionHeading(h) && NoHeadings(Split(Trim(content))) && Trim(again) == Trim(content)
    ensures var saved := Saved(Replaced(existing, date, h, content));
      Saved(Replaced(saved, date, h, again)) == saved
  {
    var saved := Saved(Replaced(existing, date, h, content));
    var heads := OwnHeadings(date, h);
    LinesOfSaved(existing, date, h, content);
    OwnNames(date, h);
    NewLinesAgain(Split(Root(existing, date)), heads, h, Trim(content));
    Rendered(saved, date, h, again);
    Rendered(existing, date, h, content);
  }

  // ---------------------------------------------------------------- appended entries

  function Marker(digest: string): string {
    "<!-- biny-daily-entry:" + digest + " -->"
  }

  function Entry(marker: string, content: string): string {
    marker + "\n" + if Trim(content) == "" then EMPTY_ENTRY else Trim(content)
  }

  /** A section with an entry more. */
  function Extended(section: string, entry: string): string {
    if section == "" then entry else section + "\n\n" + entry
  }

  function WithEntry(existing: string, date: string, h: string, marker: string, content: string): string {
    var withSection := Replaced(existing, date, h, Section(existing, h));
    if Contains(withSection, marker) then withSection
    else Replaced(withSection, date, h, Extended(Section(withSection, h), Entry(marker, content)))
  }

  lemma ContainsSaved(text: string, part: string)
    requires part != "" && Trimmed(part)
    ensures Contains(Trim(Saved(text)), part) <==> Contains(text, part)
  {
    TrimAround(Trim(text), '\n');
    ContainsTrim(text, part);
  }

  /** No line that starts a heading, even after white space. */
  predicate Plain(lines: seq<string>) {
    forall i :: 0 <= i < |lines| ==> !IsHeading(TrimStart(lines[i]))
  }

  lemma PlainNoHeadings(lines: seq<string>)
    requires Plain(lines)
    ensures NoHeadings(lines)
  {
  }

  lemma {:induction false} PlainUpTo(lines: seq<string>)
    requires ColumnZero(lines)
    ensures Plain(UpTo(lines))
    decreases lines
  {
    if lines != [] && !IsHeading(lines[0]) {
      assert ColumnZero(lines[1..]) by {
        assert forall i :: 0 <= i < |lines[1..]| ==> lines[1..][i] == lines[i + 1];
      }
      PlainUpTo(lines[1..]);
    }
  }

  lemma {:induction false} PlainSectionLines(lines: seq<string>, h: string)
    requires ColumnZero(lines)
    ensures Plain(SectionLines(lines, h))
    decreases lines
  {
    if lines != [] {
      assert ColumnZero(lines[1..]) by {
        assert forall i :: 0 <= i < |lines[1..]| ==> lines[1..][i] == lines[i + 1];
      }
      PlainUpTo(lines[1..]);
      PlainSectionLines(lines[1..], h);
    }
  }

  lemma {:induction false} PlainTrimStart(s: string)
    requires Plain(Split(s))
    ensures Plain(Split(TrimStart(s)))
    decreases |s|
  {
    if s != "" && IsSpace(s[0]) {
      var ls, rest := Split(s), Split(s[1..]);
      forall i | 0 <= i < |rest| ensures !IsHeading(TrimStart(rest[i])) {
        if s[0] == '\n' {
          assert ls[i + 1] == rest[i];
        } else if i > 0 {
          assert ls[i] == rest[i];
        } else {
          assert ls[0][1..] == rest[0];
        }
      }
      PlainTrimStart(s[1..]);
    }
  }

  lemma {:induction false} PlainTrimEnd(s: string)
    requires Plain(Split(s))
    ensures Plain(Split(TrimEnd(s)))
    decreases |s|
  {
    if s != "" && IsSpace(s[|s| - 1]) {
      var t, c := s[..|s| - 1], s[|s| - 1];
      var ls, rest := Split(s), Split(t);
      assert s == t + [c];
      if c == '\n' {
        SplitOn(t, "");
        assert s == t + "\n" + "";
        assert forall i :: 0 <= i < |rest| ==> rest[i] == ls[i];
      } else {
        SplitSnoc(t, c);
        forall i | 0 <= i < |rest| ensures !IsHeading(TrimStart(rest[i])) {
          if i < |rest| - 1 {
            assert ls[i] == rest[i];
          } else {
            assert ls[i] == rest[i] + [c];
            TrimStartOn(rest[i], [c]);
          }
        }
      }
      PlainTrimEnd(t);
    }
  }

  /** In a note without indented headings, what a section says has no heading line. */
  lemma SectionPlain(existing: string, h: string)
    requires ColumnZero(Split(Trim(existing)))
    ensures NoHeadings(Split(Section(existing, h)))
  {
    var lines := Split(Trim(existing));
    var section := SectionLines(lines, h);
    SectionByLines(lines, h);
    PlainSectionLines(lines, h);
    SectionLinesAreLines(lines, h);
    if section == [] {
      assert Split("") == [""];
    } else {
      SplitJoin(section);
    }
    PlainTrimStart(Join(section));
    PlainTrimEnd(TrimStart(Join(section)));
    PlainNoHeadings(Split(Section(existing, h)));
  }

  lemma {:induction false} SectionLinesAreLines(lines: seq<string>, h: string)
    requires Lines(lines)
    ensures Lines(SectionLines(lines, h)) && Lines(UpTo(lines))
    decreases lines
  {
    if lines != [] {
      SectionLinesAreLines(lines[1..], h);
    }
  }

  lemma SameSection(text: string, h: string)
    ensures Section(Saved(text), h) == Section(text, h)
  {
    TrimAround(Trim(text), '\n');
  }

  lemma JoinAround(a: seq<string>, b: seq<string>, c: seq<string>)
    requires b != []
    ensures Join(a + b + c) == (if a == [] then "" else Join(a) + "\n") + Join(b) + (if c == [] then "" else "\n" + Join(c))
  {
    if a == [] {
      assert a + b == b;
    } else {
      JoinOn(a, b);
    }
    if c == [] {
      assert a + b + c == a + b;
    } else {
      JoinOn(a + b, c);
    }
  }

  lemma ContainsJoin(a: seq<string>, b: seq<string>, c: seq<string>, part: string)
    requires b != [] && Contains(Join(b), part)
    ensures Contains(Join(a + b + c), part)
  {
    JoinAround(a, b, c);
    ContainsMore(Join(b), part, if a == [] then "" else Join(a) + "\n", if c == [] then "" else "\n" + Join(c));
  }

  /** What the content says is in the note. */
  lemma ReplacedContains(existing: string, date: string, h: string, content: string, part: string)
    requires SectionHeading(h) && part != "" && Trimmed(part) && Contains(Trim(content), part)
    ensures Contains(Replaced(existing, date, h, content), part)
  {
    var lines, heads, c := Split(Root(existing, date)), OwnHeadings(date, h), Trim(content);
    var before, after := Before(lines, heads), After(lines, heads);
    Rendered(existing, date, h, content);
    JoinSplit(c);
    ContainsJoin(before + [h] + [""], Split(c), after, part);
    assert c != "" by {
      var i :| 0 <= i <= |c| && At(c, i, part);
    }
    Assoc(before + [h], [""], Split(c));
    Assoc(before + [h], [""] + Split(c), after);
    ContainsTrim(Replaced(existing, date, h, content), part);
  }

  lemma MarkerShape(digest: string)
    requires Line(digest)
    ensures var m := Marker(digest); m != "" && Trimmed(m) && Line(m) && NoHeadings(Split(m))
  {
    SplitLine(Marker(digest));
  }

  lemma EntryShape(digest: string, content: string)
    requires Line(digest) && NoHeadings(Split(Trim(content)))
    ensures var e := Entry(Marker(digest), content); e != "" && Trimmed(e) && NoHeadings(Split(e)) && Contains(e, Marker(digest))
  {
    var m, text := Marker(digest), if Trim(content) == "" then EMPTY_ENTRY else Trim(content);
    MarkerShape(digest);
    SplitOn(m, text);
    SplitLine(EMPTY_ENTRY);
    assert At(Entry(m, content), 0, m);
  }

  lemma ExtendedShape(section: string, entry: string, part: string)
    requires Trimmed(section) && NoHeadings(Split(section)) && entry != "" && Trimmed(entry) && NoHeadings(Split(entry))
    requires Contains(entry, part)
    ensures var s := Extended(section, entry); Trimmed(s) && NoHeadings(Split(s)) && Contains(s, part)
  {
    var s := Extended(section, entry);
    if section != "" {
      assert s == section + "\n" + ("\n" + entry);
      SplitOn(section, "\n" + entry);
      SplitOn("", entry);
      assert "" + "\n" + entry == "\n" + entry;
      ContainsMore(entry, part, section + "\n\n", "");
      assert section + "\n\n" + entry + "" == s;
    }
  }

  /** Writing a section's own text back leaves it as it reads. */
  lemma SectionStays(existing: string, date: string, h: string)
    requires SectionHeading(h) && ColumnZero(Split(Trim(existing)))
    ensures Section(Replaced(existing, date, h, Section(existing, h)), h) == Section(existing, h)
  {
    var s := Section(existing, h);
    SectionPlain(existing, h);
    ReadsBack(existing, date, h, s);
    SameSection(Replaced(existing, date, h, s), h);
  }

  /** What the appending writer writes last, and what the section then says. */
  function LastText(existing: string, h: string, entry: string, present: bool): string {
    if present then Section(existing, h) else Extended(Section(existing, h), entry)
  }

  predicate Present(existing: string, date: string, h: string, marker: string) {
    Contains(Replaced(existing, date, h, Section(existing, h)), marker)
  }

  /** The earlier entries stay in front of a new one; an entry whose key is in the note already changes nothing. */
  lemma EntryAdded(existing: string, date: string, h: string, digest: string, content: string)
    requires SectionHeading(h) && Line(digest) && ColumnZero(Split(Trim(existing))) && NoHeadings(Split(Trim(content)))
    ensures var marker := Marker(digest);
      Section(Saved(WithEntry(existing, date, h, marker, content)), h)
        == LastText(existing, h, Entry(marker, content), Present(existing, date, h, marker))
  {
    var marker := Marker(digest);
    var s, entry := Section(existing, h), Entry(marker, content);
    var withSection := Replaced(existing, date, h, s);
    SectionStays(existing, date, h);
    if Contains(withSection, marker) {
      SameSection(withSection, h);
    } else {
      SectionPlain(existing, h);
      EntryShape(digest, content);
      ExtendedShape(s, entry, marker);
      ReadsBack(withSection, date, h, Extended(s, entry));
    }
  }

  /** Both ways the writer ends with replacing the section of some note by what it then says. */
  lemma LastReplacement(existing: string, date: string, h: string, digest: string, content: string) returns (base: string)
    requires SectionHeading(h) && Line(digest) && ColumnZero(Split(Trim(existing))) && NoHeadings(Split(Trim(content)))
    ensures var text := LastText(existing, h, Entry(Marker(digest), content), Present(existing, date, h, Marker(digest)));
      && WithEntry(existing, date, h, Marker(digest), content) == Replaced(base, date, h, text)
      && Trim(text) == text && NoHeadings(Split(text))
    ensures Contains(WithEntry(existing, date, h, Marker(digest), content), Marker(digest))
  {
    var marker := Marker(digest);
    var s, entry := Section(existing, h), Entry(marker, content);
    var withSection := Replaced(existing, date, h, s);
    SectionPlain(existing, h);
    if Contains(withSection, marker) {
      base := existing;
    } else {
      base := withSection;
      SectionStays(existing, date, h);
      MarkerShape(digest);
      EntryShape(digest, content);
      ExtendedShape(s, entry, marker);
      ReplacedContains(withSection, date, h, Extended(s, entry), marker);
    }
  }

  /** Appending the entry of one key a second time leaves the file as it is. */
  lemma EntryOnce(existing: string, date: string, h: string, digest: string, content: string, later: string)
    requires SectionHeading(h) && Line(digest) && ColumnZero(Split(Trim(existing))) && NoHeadings(Split(Trim(content)))
    ensures var saved := Saved(WithEntry(existing, date, h, Marker(digest), content));
      Saved(WithEntry(saved, date, h, Marker(digest), later)) == saved
  {
    var marker := Marker(digest);
    var first := WithEntry(existing, date, h, marker, content);
    var saved := Saved(first);
    var text := LastText(existing, h, Entry(marker, content), Present(existing, date, h, marker));
    var base := LastReplacement(existing, date, h, digest, content);
    EntryAdded(existing, date, h, digest, content);
    ReplaceIdempotent(base, date, h, text, text);
    var again := Replaced(saved, date, h, Section(saved, h));
    MarkerShape(digest);
    ContainsSaved(first, marker);
    ContainsSaved(again, marker);
  }

  // ---------------------------------------------------------------- the file

  // ---------------------------------------------------------------- what the operations come to, line by line

  lemma HeadingExactly(line: string)
    ensures IsHeading(line) <==> "# " <= line || "## " <= line
  {
  }

  /** Headings are on one line; a title that is not one yet becomes one of level two. */
  lemma TitleExactly(value: string)
    ensures var h, title := NormalizeSectionHeading(value), Trim(value);
      && (h == None <==> title == "" || exists i :: 0 <= i < |title| && (title[i] == '\n' || title[i] == '\r'))
      && (h.Some? ==> h.value == title || h.value == "## " + title)
      && (h.Some? ==> (h.value == title <==> "## " <= title))
  {
  }

  /** The lines from `start` up to `end` are the section: its heading, and all before the next heading of level one or two. */
  ghost predicate SectionSpan(lines: seq<string>, heads: set<string>, start: nat, end: nat) {
    && start < end <= |lines| && Trim(lines[start]) in heads && (forall i :: 0 <= i < start ==> Trim(lines[i]) !in heads)
    && (forall i :: start < i < end ==> !("# " <= lines[i]) && !("## " <= lines[i]))
    && (end < |lines| ==> "# " <= lines[end] || "## " <= lines[end])
  }

  /** No line names the section. */
  ghost predicate Unnamed(lines: seq<string>, heads: set<string>) {
    forall i :: 0 <= i < |lines| ==> Trim(lines[i]) !in heads
  }

  lemma SpanIs(lines: seq<string>, heads: set<string>) returns (start: nat, end: nat)
    ensures start == FirstOf(lines, heads)
    ensures if start == |lines| then Unnamed(lines, heads) else SectionSpan(lines, heads, start, end) && end == EndOf(lines, start + 1)
  {
    start := FirstOf(lines, heads);
    FirstIs(lines, heads);
    end := 0;
    if start < |lines| {
      end := EndOf(lines, start + 1);
      EndIs(lines, start + 1);
      forall i | start < i < |lines| ensures IsHeading(lines[i]) <==> "# " <= lines[i] || "## " <= lines[i] {
        HeadingExactly(lines[i]);
      }
    }
  }

  /** A section reads as the lines after its heading up to the next heading, trimmed; one that is nowhere named as nothing. */
  lemma SectionExactly(existing: string, h: string) returns (start: nat, end: nat)
    ensures var lines := Split(Trim(existing));
      if Unnamed(lines, {h}) then Section(existing, h) == ""
      else SectionSpan(lines, {h}, start, end) && Section(existing, h) == Trim(Join(lines[start + 1..end]))
  {
    start, end := SpanIs(Split(Trim(existing)), {h});
  }

  /** The names under which the activity section is found are its own and the one it had before; any other has its own only. */
  lemma NamesExactly(date: string, h: string)
    ensures OwnHeadings(date, h) == if h == "## 活动记录" then {h, "## " + date + " 工作日记"} else {h}
  {
  }

  /** Replacing puts heading and trimmed content in the place of the section, or after all else if it is nowhere named; an empty note begins with its date. */
  lemma ReplacedExactly(existing: string, date: string, h: string, content: string) returns (start: nat, end: nat)
    ensures var root := if Trim(existing) == "" then "# " + date + " 每日摘要" else Trim(existing);
      var lines, heads := Split(root), OwnHeadings(date, h);
      if Unnamed(lines, heads) then Replaced(existing, date, h, content) == root + "\n\n" + h + "\n\n" + Trim(content)
      else SectionSpan(lines, heads, start, end)
           && Replaced(existing, date, h, content) == Trim(Join(lines[..start] + [h, "", Trim(content)] + lines[end..]))
  {
    start, end := SpanIs(Split(Root(existing, date)), OwnHeadings(date, h));
  }

  /** What an entry is: the marker of its key, and its text on the lines below. */
  lemma EntryExactly(digest: string, content: string)
    ensures Entry(Marker(digest), content) ==
      "<!-- biny-daily-entry:" + digest + " -->" + "\n" + if Trim(content) == "" then "（空摘要。）" else Trim(content)
  {
  }

  /**
   After appending, the section is what it was if its key was in the note already; else what it was
   with the entry as a paragraph after it.
   */
  lemma EntryShown(existing: string, date: string, h: string, digest: string, content: string)
    requires SectionHeading(h) && Line(digest) && ColumnZero(Split(Trim(existing))) && NoHeadings(Split(Trim(content)))
    ensures var was, now := Section(existing, h), Section(Saved(WithEntry(existing, date, h, Marker(digest), content)), h);
      now == if Contains(Replaced(existing, date, h, was), Marker(digest)) then was
             else if was == "" then Entry(Marker(digest), content)
             else was + "\n\n" + Entry(Marker(digest), content)
  {
    EntryAdded(existing, date, h, digest, content);
  }

  datatype Outcome = Written | InvalidTitle | Conflict

  class DailyNote {
    const date: string
    /** The file of the day, once it is written. */
    var content: Option<string>

    constructor (date: string, content: Option<string>)
      ensures this.date == date && this.content == content
    {
      this.date, this.content := date, content;
    }

    function Existing(): string
      reads this
    {
      content.GetOr(RootHeading(date))
    }

    /** With `expected`, the section must still say what the caller saw. */
    method UpsertSection(title: string, text: string, expected: Option<string>) returns (r: Outcome)
      modifies this
      ensures var h := NormalizeSectionHeading(title);
        && (r.InvalidTitle? <==> h == None)
        && (r.Conflict? <==> h.Some? && expected.Some? && Section(old(Existing()), h.value) != expected.value)
        && (!r.Written? ==> content == old(content))
        && (r.Written? ==> content == Some(Saved(Replaced(old(Existing()), date, h.value, if Trim(text) == "" then EMPTY_CONTENT else Trim(text)))))
    {
      var h := NormalizeSectionHeading(title);
      if h == None {
        return InvalidTitle;
      }
      if expected.Some? {
        var now := ReadDailySection(Existing(), h.value);
        if now != expected.value {
          return Conflict;
        }
      }
      var next := ReplaceDailySection(Existing(), date, h.value, if Trim(text) == "" then EMPTY_CONTENT else Trim(text));
      content := Some(Saved(next));
      r := Written;
    }

    /** One entry for one key, however often it is appended. */
    method AppendEntry(title: string, digest: string, text: string) returns (r: Outcome)
      modifies this
      ensures var h := NormalizeSectionHeading(title);
        && (r.InvalidTitle? <==> h == None) && !r.Conflict?
        && (r.InvalidTitle? ==> content == old(content))
        && (r.Written? ==> content == Some(Saved(WithEntry(old(Existing()), date, h.value, Marker(digest), text))))
    {
      var h := NormalizeSectionHeading(title);
      if h == None {
        return InvalidTitle;
      }
      var marker := Marker(digest);
      var section := ReadDailySection(Existing(), h.value);
      var next := ReplaceDailySection(Existing(), date, h.value, section);
      if !Contains(next, marker) {
        section := ReadDailySection(next, h.value);
        var entry := marker + "\n" + if Trim(text) == "" then EMPTY_ENTRY else Trim(text);
        next := ReplaceDailySection(next, date, h.value, if section == "" then entry else section + "\n\n" + entry);
      }
      content := Some(Saved(next));
      r := Written;
    }
  }
}

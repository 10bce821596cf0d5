/**
 Blocks the runtime keeps up to date inside a prompt: the session goal and the date in the
 system prompt, and the date in front of the last user message. A block is found again by its
 markers.
 */
module PromptRefresh {
  import opened Wrappers
  import opened Texts

  const GOAL_START := "<!-- biny-session-goal:start -->"
  const GOAL_END := "<!-- biny-session-goal:end -->"
  const CONTEXT_START := "<!-- biny-runtime-context:start -->"
  const DATE_TITLE := "\nDATE AWARENESS (CRITICAL):"
  const DATE_START := CONTEXT_START + DATE_TITLE
  const DATE_END := "<!-- biny-runtime-context:end -->"
  const TURN_START := "<!-- biny-turn-context:start -->"
  const TURN_END := "<!-- biny-turn-context:end -->"
  const EMOTION_START := "<!-- biny-emotion:start -->"
  const EMOTION_END := "<!-- biny-emotion:end -->"
  const REMINDER_START := "<biny_reminder>"
  const REMINDER_END := "</biny_reminder>"

  // ---------------------------------------------------------------- searching

  /** The first place from `start` on where `part` occurs. */
  function IndexOf(s: string, part: string, start: nat): (r: Option<nat>)
    ensures r.Some? ==> start <= r.value && At(s, r.value, part) && forall i :: start <= i < r.value ==> !At(s, i, part)
    ensures r.None? ==> forall i :: start <= i <= |s| ==> !At(s, i, part)
    decreases |s| + 1 - start
  {
    if start > |s| then None
    else if At(s, start, part) then Some(start)
    else IndexOf(s, part, start + 1)
  }

  /** The last place before `end` where `part` occurs. */
  function LastIndexOf(s: string, part: string, end: nat): (r: Option<nat>)
    ensures r.Some? ==> r.value < end && At(s, r.value, part) && forall i :: r.value < i < end ==> !At(s, i, part)
    ensures r.None? ==> forall i :: 0 <= i < end ==> !At(s, i, part)
  {
    if end == 0 then None
    else if At(s, end - 1, part) then Some(end - 1)
    else LastIndexOf(s, part, end - 1)
  }

  predicate NoAngle(s: string) {
    forall i :: 0 <= i < |s| ==> s[i] != '<'
  }

  /** All that matters of a marker: it begins with an angle bracket, has no other one, and is on one line. */
  predicate Marker(m: string) {
    m != "" && m[0] == '<' && forall i :: 1 <= i < |m| ==> m[i] != '<' && m[i] != '\n'
  }

  lemma IndexIs(s: string, part: string, start: nat, i: nat)
    requires start <= i && At(s, i, part) && forall k :: start <= k < i ==> !At(s, k, part)
    ensures IndexOf(s, part, start) == Some(i)
  {
  }

  lemma LastIs(s: string, part: string, end: nat, i: nat)
    requires i < end && At(s, i, part) && forall k :: i < k < end ==> !At(s, k, part)
    ensures LastIndexOf(s, part, end) == Some(i)
  {
  }

  lemma AtChar(s: string, i: nat, part: string, k: nat)
    requires At(s, i, part) && k < |part|
    ensures i + k < |s| && s[i + k] == part[k]
  {
  }

  /** No marker begins where there is no angle bracket. */
  lemma NotIn(s: string, part: string, i: nat)
    requires part != "" && part[0] == '<' && i < |s| && s[i] != '<'
    ensures !At(s, i, part)
  {
  }

  // ---------------------------------------------------------------- replacing a block

  function ReplaceBlock(prompt: string, start: string, end: string, replacement: string): string {
    match IndexOf(prompt, start, 0)
    case None => prompt
    case Some(i) =>
      match IndexOf(prompt, end, i + |start|)
      case None => prompt
      case Some(j) => prompt[..i] + replacement + prompt[j + |end|..]
  }

  /** A block whose body has no angle bracket ends at its own end marker. */
  lemma BlockEnd(left: string, start: string, body: string, end: string, right: string)
    requires Marker(end) && NoAngle(body)
    ensures IndexOf(left + start + body + end + right, end, |left + start|) == Some(|left + start + body|)
  {
    var s := left + start + body + end + right;
    var i := |left + start|;
    assert s[i + |body|..i + |body| + |end|] == end;
    forall k | i <= k < i + |body| ensures !At(s, k, end) {
      assert s[k] == body[k - i];
      NotIn(s, end, k);
    }
    IndexIs(s, end, i, i + |body|);
  }

  /** Replacing takes the block out and nothing else. */
  lemma BlockReplaced(left: string, start: string, body: string, end: string, right: string, replacement: string)
    requires Marker(end) && NoAngle(body)
    requires IndexOf(left + start + body + end + right, start, 0) == Some(|left|)
    ensures ReplaceBlock(left + start + body + end + right, start, end, replacement) == left + replacement + right
  {
    var s := left + start + body + end + right;
    BlockEnd(left, start, body, end, right);
    assert s[..|left|] == left;
    assert s[|left + start + body| + |end|..] == right;
  }

  lemma TrimEndBlank(s: string)
    requires s == "" || !IsSpace(s[|s| - 1])
    ensures TrimEnd(s + "\n\n") == s
  {
    TrimEndSpace(s, '\n');
    TrimEndSpace(s + "\n", '\n');
    assert s + "\n\n" == s + "\n" + "\n";
  }

  // ---------------------------------------------------------------- the session goal

  /** Angle brackets are written as escapes. */
  function Escaped(json: string): (s: string)
    ensures NoAngle(s) && forall i :: 0 <= i < |s| ==> s[i] != '>'
  {
    if json == "" then ""
    else (if json[0] == '<' then "\\u003c" else if json[0] == '>' then "\\u003e" else [json[0]]) + Escaped(json[1..])
  }

  /** JSON in which every backslash begins an escape that JSON knows. */
  predicate ProperJson(json: string) {
    if json == "" then true
    else if json[0] == '\\' then |json| > 1 && json[1] in "\"\\/bfnrtu" && ProperJson(json[2..])
    else ProperJson(json[1..])
  }

  /** What a reader of the JSON makes of the escapes for angle brackets; all other text and escapes stay. */
  function ReadAngles(json: string): string {
    if json == "" then ""
    else if json[0] != '\\' || |json| == 1 then [json[0]] + ReadAngles(json[1..])
    else if "\\u003c" <= json then "<" + ReadAngles(json[6..])
    else if "\\u003e" <= json then ">" + ReadAngles(json[6..])
    else json[..2] + ReadAngles(json[2..])
  }

  /** Text without backslashes and angle brackets begins the one exactly if it begins the other. */
  lemma {:induction false} EscapedStart(json: string, start: string)
    requires forall i :: 0 <= i < |start| ==> start[i] != '\\' && start[i] != '<' && start[i] != '>'
    ensures start <= Escaped(json) <==> start <= json
    ensures start <= json ==> Escaped(json)[|start|..] == Escaped(json[|start|..])
    decreases |start|
  {
    if start != "" && json != "" {
      EscapedStart(json[1..], start[1..]);
      if json[0] != '<' && json[0] != '>' {
        assert Escaped(json)[1..] == Escaped(json[1..]);
        StartNext(json, start);
        StartNext(Escaped(json), start);
        assert start <= json ==> json[|start|..] == json[1..][|start| - 1..];
        assert start <= json ==> Escaped(json)[|start|..] == Escaped(json[1..])[|start| - 1..];
      } else {
        assert Escaped(json)[0] == '\\';
      }
    }
  }

  lemma StartNext(s: string, start: string)
    requires s != "" && start != ""
    ensures start <= s <==> start[0] == s[0] && start[1..] <= s[1..]
  {
    if start[0] == s[0] && start[1..] <= s[1..] {
      assert start == [start[0]] + start[1..] && s == [s[0]] + s[1..];
    }
  }

  lemma PlainKept(json: string)
    requires json != "" && json[0] != '<' && json[0] != '>'
    ensures Escaped(json) == [json[0]] + Escaped(json[1..])
  {
  }

  /** An escape is kept as it is. */
  lemma EscapeKept(json: string)
    requires |json| > 1 && json[0] == '\\' && json[1] != '<' && json[1] != '>'
    ensures Escaped(json) == json[..2] + Escaped(json[2..])
  {
    var rest := json[1..];
    PlainKept(json);
    PlainKept(rest);
    assert rest[1..] == json[2..] && rest[0] == json[1];
    Assoc([json[0]], [json[1]], Escaped(json[2..]));
    assert json[..2] == [json[0]] + [json[1]];
  }

  lemma ProperRest(json: string, n: nat)
    requires ProperJson(json) && n <= |json| && forall i :: 0 <= i < n ==> json[i] != '\\'
    ensures ProperJson(json[n..])
    decreases n
  {
    if n > 0 {
      ProperRest(json[1..], n - 1);
      assert json[1..][n - 1..] == json[n..];
    } else {
      assert json[0..] == json;
    }
  }

  /** The escape for an angle bracket, and what follows it. */
  lemma AngleEscape(json: string, code: string)
    requires ProperJson(json) && (code == "u003c" || code == "u003e") && "\\" + code <= json
    ensures ProperJson(json[6..]) && "\\" + code <= Escaped(json) && |Escaped(json)| >= 6
    ensures Escaped(json)[6..] == Escaped(json[6..])
  {
    var rest := json[2..];
    assert json[1] == 'u' && rest[..4] == code[1..];
    ProperRest(rest, 4);
    assert rest[4..] == json[6..];
    EscapedStart(json[1..], code);
    assert json[1..][..5] == code && json[1..][5..] == json[6..];
    assert Escaped(json) == ['\\'] + Escaped(json[1..]);
  }

  lemma NoAngleEscape(json: string, code: string)
    requires json != "" && json[0] == '\\' && (code == "u003c" || code == "u003e") && !("\\" + code <= json)
    ensures !("\\" + code <= Escaped(json))
  {
    EscapedStart(json[1..], code);
    StartNext(json, "\\" + code);
    StartNext(Escaped(json), "\\" + code);
    assert ("\\" + code)[1..] == code && Escaped(json)[1..] == Escaped(json[1..]);
  }

  /** The escaped goal reads as the goal. */
  lemma {:induction false} EscapedReadsBack(json: string)
    requires ProperJson(json)
    ensures ReadAngles(Escaped(json)) == ReadAngles(json)
    decreases |json|
  {
    if json == "" {
    } else if json[0] != '\\' {
      EscapedReadsBack(json[1..]);
      PlainReadsBack(json);
    } else if "\\u003c" <= json {
      AngleEscape(json, "u003c");
      EscapedReadsBack(json[6..]);
      AngleReadsBack(json, Escaped(json));
    } else if "\\u003e" <= json {
      AngleEscape(json, "u003e");
      EscapedReadsBack(json[6..]);
      AngleReadsBack(json, Escaped(json));
    } else {
      EscapedReadsBack(json[2..]);
      var escaped, rest := KeptEscape(json);
      OtherReadsBack(json, escaped, rest);
    }
  }

  lemma KeptEscape(json: string) returns (escaped: string, rest: string)
    requires |json| > 1 && json[0] == '\\' && json[1] != '<' && json[1] != '>' && !("\\u003c" <= json) && !("\\u003e" <= json)
    ensures escaped == Escaped(json) && rest == Escaped(json[2..]) && escaped == json[..2] + rest
    ensures !("\\u003c" <= escaped) && !("\\u003e" <= escaped)
  {
    NoAngleEscape(json, "u003c");
    NoAngleEscape(json, "u003e");
    EscapeKept(json);
    escaped, rest := Escaped(json), Escaped(json[2..]);
  }

  lemma AngleReadsBack(json: string, escaped: string)
    requires |json| >= 6 && |escaped| >= 6 && ReadAngles(escaped[6..]) == ReadAngles(json[6..])
    requires ("\\u003c" <= json && "\\u003c" <= escaped) || ("\\u003e" <= json && "\\u003e" <= escaped)
    ensures ReadAngles(escaped) == ReadAngles(json)
  {
  }

  lemma OtherReadsBack(json: string, escaped: string, rest: string)
    requires |json| > 1 && json[0] == '\\' && escaped == json[..2] + rest && ReadAngles(rest) == ReadAngles(json[2..])
    requires !("\\u003c" <= json) && !("\\u003e" <= json) && !("\\u003c" <= escaped) && !("\\u003e" <= escaped)
    ensures ReadAngles(escaped) == ReadAngles(json)
  {
    assert escaped[..2] == json[..2] && escaped[2..] == rest && escaped[0] == json[..2][0];
    ReadOther(json);
    ReadOther(escaped);
  }

  lemma ReadOther(s: string)
    requires |s| > 1 && s[0] == '\\' && !("\\u003c" <= s) && !("\\u003e" <= s)
    ensures ReadAngles(s) == s[..2] + ReadAngles(s[2..])
  {
  }

  lemma PlainReadsBack(json: string)
    requires json != "" && json[0] != '\\' && ReadAngles(Escaped(json[1..])) == ReadAngles(json[1..])
    ensures ReadAngles(Escaped(json)) == ReadAngles(json)
  {
    var more := Escaped(json[1..]);
    if json[0] == '<' {
      assert ("\\u003c" + more)[6..] == more;
    } else if json[0] == '>' {
      assert ("\\u003e" + more)[6..] == more && ("\\u003e" + more)[5] == 'e';
      assert "\\u003c"[5] == 'c';
    } else {
      assert ([json[0]] + more)[1..] == more;
    }
  }

  /** What is said around the goal; it has no angle brackets. */
  type Prose = s: string | NoAngle(s) witness ""

  function GoalBody(intro: Prose, json: string, outro: Prose): (s: string)
    ensures NoAngle(s)
  {
    "\n\n" + intro + Escaped(json) + outro + "\n\n"
  }

  function Attached(prompt: string, block: string): string {
    if prompt == "" then block else prompt + "\n\n" + block
  }

  /** The prompt with the goal it has now, if any. */
  function RefreshGoal(base: string, goal: Option<string>, intro: Prose, outro: Prose): string {
    var prompt := TrimEnd(ReplaceBlock(base, GOAL_START, GOAL_END, ""));
    match goal
    case None => prompt
    case Some(json) => Attached(prompt, GOAL_START + GoalBody(intro, json, outro) + GOAL_END)
  }

  lemma GoalStart()
    ensures Marker(GOAL_START)
  {
  }

  lemma GoalEnd()
    ensures Marker(GOAL_END)
  {
  }

  /** The first start marker after text without one is the one that was put there. */
  lemma FirstMarker(left: string, start: string, right: string)
    requires Marker(start) && !Contains(left, start)
    ensures IndexOf(left + "\n\n" + start + right, start, 0) == Some(|left| + 2)
  {
    var s := left + "\n\n" + start + right;
    assert s[|left| + 2..|left| + 2 + |start|] == start;
    forall k | 0 <= k < |left| + 2 ensures !At(s, k, start) {
      if k >= |left| {
        NotIn(s, start, k);
      } else if k + |start| <= |left| {
        assert s[k..k + |start|] == left[k..k + |start|];
        assert !At(left, k, start);
      } else if At(s, k, start) {
        AtChar(s, k, start, |left| - k);
      }
    }
    IndexIs(s, start, 0, |left| + 2);
  }

  lemma FirstAtOnce(start: string, right: string)
    requires start != ""
    ensures IndexOf(start + right, start, 0) == Some(0)
  {
  }

  lemma TrimmedContains(base: string, part: string)
    requires Contains(TrimEnd(base), part)
    ensures Contains(base, part)
  {
    var t := TrimEnd(base);
    ContainsMore(t, part, "", base[|t|..]);
    assert "" + t + base[|t|..] == base;
  }

  lemma NoIndex(s: string, part: string)
    requires !Contains(s, part)
    ensures IndexOf(s, part, 0) == None
  {
  }

  /** Taking the block out of a prompt it was attached to gives the prompt. */
  lemma Detached(prompt: string, start: string, body: string, end: string)
    requires Marker(start) && Marker(end) && NoAngle(body) && !Contains(prompt, start)
    requires prompt == "" || !IsSpace(prompt[|prompt| - 1])
    ensures TrimEnd(ReplaceBlock(Attached(prompt, start + body + end), start, end, "")) == prompt
  {
    var left := if prompt == "" then "" else prompt + "\n\n";
    if prompt == "" {
      FirstAtOnce(start, body + end);
      assert left + start + (body + end) == start + (body + end);
    } else {
      FirstMarker(prompt, start, body + end);
      TrimEndBlank(prompt);
    }
    Assoc(left + start, body, end);
    LastBlock(left, start, body, end);
    Assoc(left, start, body);
    Assoc(left, start + body, end);
    assert "" + (start + body + end) == start + body + end;
  }

  lemma LastBlock(left: string, start: string, body: string, end: string)
    requires Marker(end) && NoAngle(body) && IndexOf(left + start + body + end, start, 0) == Some(|left|)
    ensures ReplaceBlock(left + start + body + end, start, end, "") == left
  {
    assert left + start + body + end + "" == left + start + body + end;
    BlockReplaced(left, start, body, end, "", "");
    assert left + "" + "" == left;
  }

  /**
   The last goal wins: for a prompt without a goal block, refreshing with one goal and then with
   another, or with none, is refreshing with the second alone. No goal text can end the block early.
   */
  lemma LastGoalWins(base: string, first: Option<string>, second: Option<string>, intro: Prose, outro: Prose)
    requires !Contains(base, GOAL_START)
    ensures RefreshGoal(RefreshGoal(base, first, intro, outro), second, intro, outro) == RefreshGoal(base, second, intro, outro)
  {
    var prompt := TrimEnd(base);
    GoalStart();
    GoalEnd();
    NoIndex(base, GOAL_START);
    if Contains(prompt, GOAL_START) {
      TrimmedContains(base, GOAL_START);
    }
    match first
    case None => NoIndex(prompt, GOAL_START);
    case Some(json) => Detached(prompt, GOAL_START, GoalBody(intro, json, outro), GOAL_END);
  }

  lemma AttachedShown(prompt: string, a: string, b: string, c: string)
    ensures Attached(prompt, a + b + c) == (if prompt == "" then "" else prompt + "\n\n") + a + b + c
  {
    var front := if prompt == "" then "" else prompt + "\n\n";
    assert "" + (a + b + c) == a + b + c;
    Assoc(front, a, b);
    Assoc(front, a + b, c);
  }

  /** The goal is at the end of the prompt between its markers; what is said of it can be read from there. */
  lemma GoalShown(base: string, json: string, intro: Prose, outro: Prose)
    requires !Contains(base, GOAL_START)
    ensures var p := TrimEnd(base);
      RefreshGoal(base, Some(json), intro, outro) ==
        (if p == "" then "" else p + "\n\n") + GOAL_START + ("\n\n" + intro + Escaped(json) + outro + "\n\n") + GOAL_END
    ensures ProperJson(json) ==> ReadAngles(Escaped(json)) == ReadAngles(json)
  {
    NoIndex(base, GOAL_START);
    AttachedShown(TrimEnd(base), GOAL_START, "\n\n" + intro + Escaped(json) + outro + "\n\n", GOAL_END);
    if ProperJson(json) {
      EscapedReadsBack(json);
    }
  }

  /** Clearing the goal gives back the prompt, without white space at its end. */
  lemma ClearingRestores(base: string, json: string, intro: Prose, outro: Prose)
    requires !Contains(base, GOAL_START)
    ensures RefreshGoal(RefreshGoal(base, Some(json), intro, outro), None, intro, outro) == TrimEnd(base)
  {
    LastGoalWins(base, Some(json), None, intro, outro);
    NoIndex(base, GOAL_START);
  }

  // ---------------------------------------------------------------- the date in the system prompt

  type DateText = s: string | NoAngle(s) witness ""

  function DateBlock(text: DateText): string {
    DATE_START + text + DATE_END
  }

  /** Without the last date block. */
  function DateCut(system: string): string {
    match LastIndexOf(system, DATE_START, |system|)
    case None => system
    case Some(i) =>
      match IndexOf(system, DATE_END, i)
      case None => system
      case Some(j) => system[..i] + system[j + |DATE_END|..]
  }

  function WithoutDate(system: string): string {
    TrimEnd(DateCut(system))
  }

  function RefreshDate(system: string, text: DateText): string {
    Attached(WithoutDate(system), DateBlock(text))
  }

  lemma DateEnd()
    ensures Marker(DATE_END) && |DATE_END| == 33 && DATE_END[26] == 'e'
  {
  }

  /** The date's start marker, in as much of it as matters. */
  lemma DateStart(i: nat)
    requires i < |DATE_START|
    ensures DATE_START[i] == '<' <==> i == 0
    ensures |DATE_START| > |DATE_END| > 26 && DATE_START[26] == 's'
  {
  }

  /** The end marker does not occur within the start marker. */
  lemma NoEndInStart(left: string, text: DateText, k: nat)
    requires |left| <= k < |left| + |DATE_START|
    ensures !At(left + DateBlock(text), k, DATE_END)
  {
    var s := left + DateBlock(text);
    DateEnd();
    DateStart(k - |left|);
    assert s[k] == DATE_START[k - |left|];
    if k == |left| {
      assert s[k + 26] == DATE_START[26];
      if At(s, k, DATE_END) {
        AtChar(s, k, DATE_END, 26);
      }
    } else {
      NotIn(s, DATE_END, k);
    }
  }

  lemma DateTaken(left: string, text: DateText)
    ensures WithoutDate(left + DateBlock(text)) == TrimEnd(left)
  {
    DateTakenOut(left, text, "");
    assert left + DateBlock(text) + "" == left + DateBlock(text) && left + "" == left;
  }

  lemma {:induction false} IndexSkip(s: string, part: string, start: nat, from: nat)
    requires start <= from <= |s| && forall k :: start <= k < from ==> !At(s, k, part)
    ensures IndexOf(s, part, start) == IndexOf(s, part, from)
    decreases from - start
  {
  }

  /** The last date wins: refreshing the date twice is refreshing it with the second one, for any prompt. */
  lemma LastDateWins(system: string, first: DateText, second: DateText)
    ensures RefreshDate(RefreshDate(system, first), second) == RefreshDate(system, second)
  {
    var prompt := WithoutDate(system);
    if prompt == "" {
      DateTaken("", first);
      assert "" + DateBlock(first) == DateBlock(first);
    } else {
      DateTaken(prompt + "\n\n", first);
      TrimEndBlank(prompt);
    }
  }

  /** The date is at the end of the prompt, after what the prompt is without its last date. */
  lemma DateShown(system: string, text: DateText)
    ensures var p := WithoutDate(system);
      RefreshDate(system, text) == (if p == "" then "" else p + "\n\n") + DATE_START + text + DATE_END
  {
    AttachedShown(WithoutDate(system), DATE_START, text, DATE_END);
  }

  /** A prompt without a date loses trailing white space only. */
  lemma UndatedKept(system: string)
    requires !Contains(system, DATE_START)
    ensures WithoutDate(system) == TrimEnd(system)
  {
  }

  /** The last date goes from wherever it is, and what stands around it stays. */
  lemma DateTakenOut(left: string, text: DateText, right: string)
    requires !Contains(right, DATE_START)
    ensures WithoutDate(left + DateBlock(text) + right) == TrimEnd(left + right)
  {
    var s := left + DateBlock(text) + right;
    LastDateWithin(left, text, right);
    forall k | |left| <= k < |left| + |DATE_START| ensures !At(s, k, DATE_END) {
      NoEndInStart(left, text, k);
      PrefixAt(left + DateBlock(text), right, k, DATE_END);
    }
    DateEndWithin(left, text, right);
    assert s[..|left|] == left && s[|left + DateBlock(text)|..] == right;
  }

  /** Whether a text occurs at a place where it would end within the first part is a matter of that part. */
  lemma PrefixAt(s: string, right: string, k: nat, part: string)
    requires k + |part| <= |s|
    ensures At(s + right, k, part) <==> At(s, k, part)
  {
    assert (s + right)[k..k + |part|] == s[k..k + |part|];
  }

  lemma DateEndWithin(left: string, text: DateText, right: string)
    requires forall k :: |left| <= k < |left| + |DATE_START| ==> !At(left + DateBlock(text) + right, k, DATE_END)
    ensures IndexOf(left + DateBlock(text) + right, DATE_END, |left|) == Some(|left + DATE_START + text|)
  {
    var s := left + DATE_START + text + DATE_END + right;
    Assoc(left, DATE_START, text);
    Assoc(left, DATE_START + text, DATE_END);
    assert s == left + DateBlock(text) + right;
    DateEnd();
    BlockEnd(left, DATE_START, text, DATE_END, right);
    IndexSkip(s, DATE_END, |left|, |left + DATE_START|);
  }

  lemma LastDateWithin(left: string, text: DateText, right: string)
    requires !Contains(right, DATE_START)
    ensures var s := left + DateBlock(text) + right; LastIndexOf(s, DATE_START, |s|) == Some(|left|)
  {
    var s := left + DateBlock(text) + right;
    var n := |left + DateBlock(text)|;
    DateStart(0);
    assert s[|left|..|left| + |DATE_START|] == DATE_START;
    forall k | |left| < k < |s| ensures !At(s, k, DATE_START) {
      NoDateAfter(left, text, right, k);
    }
    LastIs(s, DATE_START, |s|, |left|);
  }

  lemma NoDateAfter(left: string, text: DateText, right: string, k: nat)
    requires !Contains(right, DATE_START) && |left| < k < |left + DateBlock(text) + right|
    ensures !At(left + DateBlock(text) + right, k, DATE_START)
  {
    var block := DateBlock(text);
    var s := left + block + right;
    var i := k - |left|;
    DateStart(0);
    if i >= |block| {
      assert s[k..] == right[i - |block|..];
      if At(s, k, DATE_START) {
        assert right[i - |block|..i - |block| + |DATE_START|] == s[k..k + |DATE_START|];
        assert At(right, i - |block|, DATE_START);
      }
    } else {
      assert s[k] == block[i];
      if i < |DATE_START| {
        DateStart(i);
        NotIn(s, DATE_START, k);
      } else if i < |DATE_START| + |text| {
        assert block[i] == text[i - |DATE_START|];
        NotIn(s, DATE_START, k);
      } else {
        NoDateInEnd(left, text, right, k);
      }
    }
  }

  lemma NoDateInEnd(left: string, text: DateText, right: string, k: nat)
    requires |left| + |DATE_START| + |text| <= k < |left + DateBlock(text)|
    ensures !At(left + DateBlock(text) + right, k, DATE_START)
  {
    var s := left + DateBlock(text) + right;
    var i := k - (|left| + |DATE_START| + |text|);
    DateEnd();
    DateStart(0);
    DateStart(26);
    assert s[k] == DATE_END[i];
    if i > 0 {
      NotIn(s, DATE_START, k);
    } else {
      assert s[k + 26] == DATE_END[26];
      if At(s, k, DATE_START) {
        AtChar(s, k, DATE_START, 26);
      }
    }
  }

  // ---------------------------------------------------------------- the date before the user's message

  datatype Part = TextPart(text: string) | OtherPart(id: nat)

  /** The content of a message: one text, or parts. */
  datatype Content = Text(text: string) | Parts(parts: seq<Part>) {
    predicate HasText() {
      Text? || (parts != [] && parts[0].TextPart?)
    }

    function FirstText(): string {
      if Text? then text else if HasText() then parts[0].text else ""
    }

    function WithFirst(first: string): Content {
      if Text? then Text(first) else Parts([TextPart(first)] + if HasText() then parts[1..] else parts)
    }
  }

  /** A user message as the model gets it; `original` is what the user wrote, once something was put in front of it. */
  datatype Message = Message(content: Content, original: Option<Content>)

  predicate EndsWith(s: string, tail: string) {
    |tail| <= |s| && s[|s| - |tail|..] == tail
  }

  function Reminder(text: DateText): string {
    REMINDER_START + text + REMINDER_END
  }

  /** How much of a text stands before what the user wrote. */
  function PrefixLength(text: string, original: Option<string>): (n: nat)
    ensures n <= |text|
  {
    if original.Some? && EndsWith(text, original.value) then |text| - |original.value| else 0
  }

  /** Where the reminder begins that the runtime put in front. */
  function ReminderAt(injected: string): Option<nat> {
    if TURN_START + "\n\n" + REMINDER_START <= injected then Some(|TURN_START| + 2)
    else if TURN_START + "\n" + REMINDER_START <= injected then Some(|TURN_START| + 1)
    else None
  }

  function AfterTurn(injected: string): string {
    match IndexOf(injected, TURN_END, 0)
    case None => ""
    case Some(i) => injected[i + |TURN_END|..]
  }

  function Prefix(injected: string, reminder: string): string {
    var start := ReminderAt(injected);
    if start.Some? && IndexOf(injected, REMINDER_END, start.value).Some?
    then ReplaceBlock(injected, REMINDER_START, REMINDER_END, reminder)
    else TURN_START + "\n" + reminder + "\n" + TURN_END + "\n\n" + (if start.Some? then AfterTurn(injected) else injected)
  }

  /** A text with the reminder in front of it. */
  function RefreshText(text: string, original: Option<string>, reminder: string): string {
    var n := PrefixLength(text, original);
    Prefix(text[..n], reminder) + text[n..]
  }

  function OriginalText(original: Option<Content>): Option<string> {
    if original.Some? then Some(original.value.FirstText()) else None
  }

  function RefreshMessage(m: Message, reminder: string): Message {
    var text := RefreshText(m.content.FirstText(), OriginalText(m.original), reminder);
    Message(m.content.WithFirst(if m.content.HasText() then text else TrimEnd(text)), Some(m.original.GetOr(m.content)))
  }

  lemma TurnStart()
    ensures Marker(TURN_START) && |TURN_START| > 2 && TURN_START[1] == '!'
  {
  }

  lemma ReminderMarkers()
    ensures Marker(REMINDER_START) && REMINDER_START[1] == 'b' && Marker(REMINDER_END) && REMINDER_END[1] == '/' && |REMINDER_END| > 2
    ensures |REMINDER_START| > 2
  {
  }

  /** What stands before a reminder the runtime put in front. */
  function Lead(blank: bool): string {
    TURN_START + if blank then "\n\n" else "\n"
  }

  lemma ReminderFirst(blank: bool, right: string)
    ensures var s := Lead(blank) + REMINDER_START + right;
      IndexOf(s, REMINDER_START, 0) == Some(|Lead(blank)|) && ReminderAt(s) == Some(|Lead(blank)|)
  {
    var lead := Lead(blank);
    var s := lead + REMINDER_START + right;
    TurnStart();
    ReminderMarkers();
    assert s[|lead|..|lead| + |REMINDER_START|] == REMINDER_START;
    forall k | 0 <= k < |lead| ensures !At(s, k, REMINDER_START) {
      if k == 0 {
        assert s[1] == TURN_START[1];
        if At(s, k, REMINDER_START) {
          AtChar(s, k, REMINDER_START, 1);
        }
      } else {
        assert s[k] == lead[k];
        NotIn(s, REMINDER_START, k);
      }
    }
    IndexIs(s, REMINDER_START, 0, |lead|);
    assert lead + REMINDER_START <= s;
    assert s[|TURN_START| + 1] == if blank then '\n' else '<';
  }

  /** A reminder in front, with whatever follows it, is replaced by the new one. */
  lemma ReminderReplaced(blank: bool, was: DateText, right: string, now: string)
    ensures Prefix(Lead(blank) + Reminder(was) + right, now) == Lead(blank) + now + right
  {
    var lead := Lead(blank);
    var s := lead + REMINDER_START + was + REMINDER_END + right;
    assert s == lead + Reminder(was) + right == lead + REMINDER_START + (was + REMINDER_END + right);
    ReminderFirst(blank, was + REMINDER_END + right);
    ReminderMarkers();
    BlockReplaced(lead, REMINDER_START, was, REMINDER_END, right, now);
    BlockEnd(lead, REMINDER_START, was, REMINDER_END, right);
    assert At(s, |lead + REMINDER_START + was|, REMINDER_END);
  }

  /** A reminder that is not closed goes with its whole block, and what follows the block stays behind a new one. */
  lemma BrokenReminder(blank: bool, body: string, right: string, now: string)
    requires NoAngle(body) && IndexOf(Lead(blank) + REMINDER_START + body + TURN_END + right, REMINDER_END, |Lead(blank)|).None?
    ensures Prefix(Lead(blank) + REMINDER_START + body + TURN_END + right, now) == TURN_START + "\n" + now + "\n" + TURN_END + "\n\n" + right
  {
    var s := Lead(blank) + REMINDER_START + body + TURN_END + right;
    assert s == Lead(blank) + REMINDER_START + (body + TURN_END + right);
    ReminderFirst(blank, body + TURN_END + right);
    FirstTurnEnd(blank, body, right);
    assert s[|Lead(blank) + REMINDER_START + body| + |TURN_END|..] == right;
  }

  lemma FirstTurnEnd(blank: bool, body: string, right: string)
    requires NoAngle(body)
    ensures IndexOf(Lead(blank) + REMINDER_START + body + TURN_END + right, TURN_END, 0) == Some(|Lead(blank) + REMINDER_START + body|)
  {
    var lead := Lead(blank);
    var n := |lead + REMINDER_START + body|;
    var s := lead + REMINDER_START + body + TURN_END + right;
    TurnMarkers();
    ReminderMarkers();
    assert At(s, 0, TURN_START) && At(s, |lead|, REMINDER_START) && At(s, n, TURN_END);
    forall k | 0 <= k < n ensures !At(s, k, TURN_END) {
      if k < |TURN_START| {
        Apart(s, 0, TURN_START, TURN_END, 23, k);
      } else if |lead| <= k < |lead + REMINDER_START| {
        Apart(s, |lead|, REMINDER_START, TURN_END, 1, k);
      } else {
        assert s[k] == if k < |lead| then lead[k] else body[k - |lead + REMINDER_START|];
        NotIn(s, TURN_END, k);
      }
    }
    IndexIs(s, TURN_END, 0, n);
  }

  lemma TurnMarkers()
    ensures Marker(TURN_START) && Marker(TURN_END) && |TURN_START| > 23 && |TURN_END| > 23 && TURN_START[23] != TURN_END[23] && TURN_END[1] == '!'
  {
  }

  lemma LeadShape(injected: string) returns (blank: bool)
    requires ReminderAt(injected).Some?
    ensures Lead(blank) <= injected && IndexOf(injected, REMINDER_START, 0) == Some(|Lead(blank)|)
    ensures ReminderAt(injected) == Some(|Lead(blank)|)
  {
    blank := TURN_START + "\n\n" + REMINDER_START <= injected;
    var lead := Lead(blank);
    assert lead + REMINDER_START <= injected;
    var tail := injected[|lead + REMINDER_START|..];
    assert injected == lead + REMINDER_START + tail;
    ReminderFirst(blank, tail);
  }

  /** Putting a reminder in front always leaves one there that will be found again, and what follows does not depend on it. */
  lemma PrefixShape(injected: string) returns (blank: bool, right: string)
    ensures forall text: DateText :: Prefix(injected, Reminder(text)) == Lead(blank) + Reminder(text) + right
  {
    var start := ReminderAt(injected);
    if start.Some? && IndexOf(injected, REMINDER_END, start.value).Some? {
      blank := LeadShape(injected);
      right := FoundShape(injected, Lead(blank));
    } else {
      blank := false;
      right := "\n" + TURN_END + "\n\n" + if start.Some? then AfterTurn(injected) else injected;
    }
  }

  /** No marker begins within another one, nor in its place. */
  lemma Apart(s: string, i: nat, marker: string, part: string, d: nat, k: nat)
    requires Marker(marker) && Marker(part) && d < |marker| && d < |part| && marker[d] != part[d]
    requires At(s, i, marker) && i <= k < i + |marker|
    ensures !At(s, k, part)
  {
    AtChar(s, i, marker, if k == i then d else k - i);
    if k == i && At(s, k, part) {
      AtChar(s, i, part, d);
    } else if k > i {
      NotIn(s, part, k);
    }
  }

  lemma NoEndInside(s: string, i: nat, k: nat)
    requires At(s, i, REMINDER_START) && i <= k < i + |REMINDER_START|
    ensures !At(s, k, REMINDER_END)
  {
    ReminderMarkers();
    Apart(s, i, REMINDER_START, REMINDER_END, 1, k);
  }

  lemma FoundShape(injected: string, lead: string) returns (right: string)
    requires IndexOf(injected, REMINDER_START, 0) == Some(|lead|) && lead <= injected
    requires IndexOf(injected, REMINDER_END, |lead|).Some?
    ensures forall now: string :: ReplaceBlock(injected, REMINDER_START, REMINDER_END, now) == lead + now + right
  {
    ReminderMarkers();
    EndSkipped(injected, |lead|);
    var j := IndexOf(injected, REMINDER_END, |lead| + |REMINDER_START|).value;
    right := injected[j + |REMINDER_END|..];
    assert injected[..|lead|] == lead;
  }

  /** Looking for the end marker from the start marker on is looking for it from behind that on. */
  lemma EndSkipped(injected: string, i: nat)
    requires At(injected, i, REMINDER_START)
    ensures IndexOf(injected, REMINDER_END, i) == IndexOf(injected, REMINDER_END, i + |REMINDER_START|)
  {
    forall k | i <= k < i + |REMINDER_START| ensures !At(injected, k, REMINDER_END) {
      NoEndInside(injected, i, k);
    }
    IndexSkip(injected, REMINDER_END, i, i + |REMINDER_START|);
  }

  lemma PrefixTwice(injected: string, first: DateText, second: DateText)
    ensures Prefix(Prefix(injected, Reminder(first)), Reminder(second)) == Prefix(injected, Reminder(second))
  {
    var blank, right := PrefixShape(injected);
    ReminderReplaced(blank, first, right, Reminder(second));
  }

  // ---------------------------------------------------------------- when the last date wins

  const CLOSING := "\n" + TURN_END + "\n\n"

  /** What stands after the reminder in a prefix of its own; a message without text gets no empty lines. */
  function Closing(content: Content): string {
    if content.HasText() then CLOSING else "\n" + TURN_END
  }

  /** A new prefix with what comes after it. */
  function InFront(closing: string, text: string, reminder: string): string {
    Lead(false) + reminder + closing + text
  }

  /** What the user wrote is the text with an end of the closing lines before it. */
  predicate ClosingTail(closing: string, text: string, original: string) {
    exists n: nat :: n < |closing| && original == closing[n..] + text
  }

  /** What the user wrote is known: nothing was put in front yet, or it ends the text. */
  predicate Known(text: string, original: Option<string>) {
    original.None? || EndsWith(text, original.value)
  }

  /** The reminder put in front of a text that nothing is known to be in front of. */
  lemma PrefixNew(text: string, original: Option<string>, reminder: string)
    requires PrefixLength(text, original) == 0
    ensures RefreshText(text, original, reminder) == InFront(CLOSING, text, reminder)
  {
    assert text[..0] == "" && text[0..] == text;
    Assoc(TURN_START, "\n", reminder);
    Assoc(Lead(false) + reminder, "\n", TURN_END);
    Assoc(Lead(false) + reminder, "\n" + TURN_END, "\n\n");
    assert CLOSING + "" == CLOSING;
  }

  /** What stands in front is known again the next time. */
  lemma KnownAgain(prefix: string, rest: string, reminder: string)
    ensures RefreshText(prefix + rest, Some(rest), reminder) == Prefix(prefix, reminder) + rest
  {
    assert (prefix + rest)[..|prefix|] == prefix && (prefix + rest)[|prefix|..] == rest;
  }

  /** With what the user wrote at the end, only the prefix is rewritten. */
  lemma KnownTwice(text: string, original: Option<string>, first: DateText, second: DateText)
    requires Known(text, original)
    ensures var user := Some(original.GetOr(text));
      RefreshText(RefreshText(text, original, Reminder(first)), user, Reminder(second)) == RefreshText(text, original, Reminder(second))
  {
    var n := PrefixLength(text, original);
    assert original.GetOr(text) == text[n..];
    KnownAgain(Prefix(text[..n], Reminder(first)), text[n..], Reminder(second));
    PrefixTwice(text[..n], first, second);
  }

  /** A part of the new prefix that reaches over the reminder keeps the reminder's place. */
  lemma CutAfter(closing: string, text: string, n: nat, first: DateText, reminder: string)
    requires n < |closing|
    ensures RefreshText(InFront(closing, text, Reminder(first)), Some(closing[n..] + text), reminder) == InFront(closing, text, reminder)
  {
    var head := Lead(false) + Reminder(first);
    Regroup(head, closing, n, text);
    KnownAgain(head + closing[..n], closing[n..] + text, reminder);
    ReminderReplaced(false, first, closing[..n], reminder);
    Regroup(Lead(false) + reminder, closing, n, text);
  }

  lemma Regroup(a: string, b: string, n: nat, c: string)
    requires n <= |b|
    ensures a + b[..n] + (b[n..] + c) == a + b + c
  {
    assert b[..n] + b[n..] == b;
    Assoc(a, b[..n], b[n..]);
    Assoc(a + b[..n], b[n..], c);
  }

  /** Cut within the reminder, the prefix is not known as one. */
  lemma CutWithin(first: DateText, k: nat, reminder: string)
    requires k < |Lead(false) + Reminder(first)|
    ensures |Prefix((Lead(false) + Reminder(first))[..k], reminder)| >= |Lead(false) + reminder + CLOSING|
  {
    var head := Lead(false) + Reminder(first);
    var injected := head[..k];
    var start := ReminderAt(injected);
    if start.Some? && IndexOf(injected, REMINDER_END, start.value).Some? {
      NoEndCut(first, k, IndexOf(injected, REMINDER_END, start.value).value);
    }
  }

  /** The end marker of the reminder in front begins after its text. */
  lemma NoEndCut(first: DateText, k: nat, i: nat)
    requires |TURN_START| < i && k < |Lead(false) + Reminder(first)|
    ensures !At((Lead(false) + Reminder(first))[..k], i, REMINDER_END)
  {
    var lead := Lead(false);
    var head := lead + Reminder(first);
    ReminderMarkers();
    assert head == lead + REMINDER_START + first + REMINDER_END;
    assert At(head, |lead|, REMINDER_START);
    if i < |lead + REMINDER_START| {
      NoEndInside(head, |lead|, i);
      NotInCut(head, k, i, REMINDER_END);
    } else if i + |REMINDER_END| <= k {
      assert head[i] == first[i - |lead + REMINDER_START|];
      NotIn(head, REMINDER_END, i);
      NotInCut(head, k, i, REMINDER_END);
    }
  }

  lemma NotInCut(s: string, k: nat, i: nat, part: string)
    requires k <= |s| && !At(s, i, part)
    ensures !At(s[..k], i, part)
  {
    if i + |part| <= k {
      assert s[..k][i..i + |part|] == s[i..i + |part|];
    }
  }

  /**
   Where what the user wrote is not at the end of the text, the next refresh rewrites the prefix it
   put there exactly if what the user wrote begins within the closing lines; otherwise the text grows.
   */
  lemma UnknownTwice(closing: string, text: string, original: string, first: DateText, second: DateText)
    requires |closing| <= |CLOSING| && !EndsWith(text, original)
    ensures var once := InFront(closing, text, Reminder(second));
      var twice := RefreshText(InFront(closing, text, Reminder(first)), Some(original), Reminder(second));
      (ClosingTail(closing, text, original) ==> twice == once) && (!ClosingTail(closing, text, original) ==> |twice| > |once|)
  {
    var front := InFront(closing, text, Reminder(first));
    if ClosingTail(closing, text, original) {
      var n: nat :| n < |closing| && original == closing[n..] + text;
      CutAfter(closing, text, n, first, Reminder(second));
    } else if EndsWith(front, original) {
      GrowsWithin(closing, text, original, first, Reminder(second));
    } else {
      PrefixNew(front, Some(original), Reminder(second));
    }
  }

  lemma GrowsWithin(closing: string, text: string, original: string, first: DateText, reminder: string)
    requires |closing| <= |CLOSING| && !EndsWith(text, original) && !ClosingTail(closing, text, original)
    requires EndsWith(InFront(closing, text, Reminder(first)), original)
    ensures |RefreshText(InFront(closing, text, Reminder(first)), Some(original), reminder)| > |InFront(closing, text, reminder)|
  {
    var head := Lead(false) + Reminder(first);
    LongerOriginal(head + closing, text, original);
    if |original| <= |closing + text| {
      CutClosing(head, closing, text, original);
    } else {
      CutGrows(closing, text, original, first, reminder);
    }
  }

  lemma CutGrows(closing: string, text: string, original: string, first: DateText, reminder: string)
    requires |closing| <= |CLOSING| && |original| > |closing + text|
    requires EndsWith(InFront(closing, text, Reminder(first)), original)
    ensures |RefreshText(InFront(closing, text, Reminder(first)), Some(original), reminder)| > |InFront(closing, text, reminder)|
  {
    var head := Lead(false) + Reminder(first);
    var front := InFront(closing, text, Reminder(first));
    var k := |front| - |original|;
    assert front == head[..k] + original;
    CutWithin(first, k, reminder);
    KnownAgain(head[..k], original, reminder);
  }

  /** What ends a text only with something in front of it is longer than the text. */
  lemma LongerOriginal(prefix: string, text: string, original: string)
    requires EndsWith(prefix + text, original)
    ensures EndsWith(text, original) <==> |original| <= |text|
  {
    if |original| <= |text| {
      var s := prefix + text;
      assert s[|s| - |original|..] == text[|text| - |original|..];
    }
  }

  lemma CutClosing(head: string, closing: string, text: string, original: string)
    requires EndsWith(head + closing + text, original) && |text| < |original| <= |closing + text|
    ensures ClosingTail(closing, text, original)
  {
    var n := |closing + text| - |original|;
    assert original == closing[n..] + text;
  }

  /** The first refresh of a message that nothing is known to be in front of. */
  lemma FirstRefresh(m: Message, reminder: DateText)
    requires PrefixLength(m.content.FirstText(), OriginalText(m.original)) == 0
    ensures RefreshMessage(m, Reminder(reminder)) == Message(
      m.content.WithFirst(InFront(Closing(m.content), m.content.FirstText(), Reminder(reminder))), Some(m.original.GetOr(m.content)))
  {
    PrefixNew(m.content.FirstText(), OriginalText(m.original), Reminder(reminder));
    if !m.content.HasText() {
      NewTrimmed(Reminder(reminder));
    }
  }

  lemma NewTrimmed(reminder: string)
    ensures TrimEnd(InFront(CLOSING, "", reminder)) == InFront("\n" + TURN_END, "", reminder)
  {
    var s := Lead(false) + reminder + ("\n" + TURN_END);
    assert TURN_END[|TURN_END| - 1] == '>';
    TrimEndBlank(s);
    assert InFront(CLOSING, "", reminder) == s + "\n\n" && InFront("\n" + TURN_END, "", reminder) == s;
  }

  /** Two contents that differ in their first text only are equal exactly if that is equal. */
  lemma SameFirst(content: Content, a: string, b: string)
    ensures content.WithFirst(a) == content.WithFirst(b) <==> a == b
    ensures content.WithFirst(a).HasText() && content.WithFirst(a).FirstText() == a
    ensures content.WithFirst(a).WithFirst(b) == content.WithFirst(b)
  {
    if a != b && content.Parts? {
      assert content.WithFirst(a).parts[0] != content.WithFirst(b).parts[0];
    }
  }

  /** The first date in a message: in a block of its own in front of what the user wrote, which is recorded. */
  lemma ReminderShown(text: string, parts: seq<Part>, date: DateText)
    ensures RefreshMessage(Message(Text(text), None), Reminder(date))
      == Message(Text(TURN_START + "\n" + REMINDER_START + date + REMINDER_END + "\n" + TURN_END + "\n\n" + text), Some(Text(text)))
    ensures RefreshMessage(Message(Parts([TextPart(text)] + parts), None), Reminder(date)).content
      == Parts([TextPart(TURN_START + "\n" + REMINDER_START + date + REMINDER_END + "\n" + TURN_END + "\n\n" + text)] + parts)
    ensures (parts == [] || parts[0].OtherPart?) ==>
      RefreshMessage(Message(Parts(parts), None), Reminder(date)).content
        == Parts([TextPart(TURN_START + "\n" + REMINDER_START + date + REMINDER_END + "\n" + TURN_END)] + parts)
  {
    FirstRefresh(Message(Text(text), None), date);
    FirstRefresh(Message(Parts([TextPart(text)] + parts), None), date);
    FrontShown(text, date);
    if parts == [] || parts[0].OtherPart? {
      FirstRefresh(Message(Parts(parts), None), date);
      FrontShown("", date);
    }
  }

  lemma Flattened(a: string, b: string, c: string, d: string, e: string, f: string, g: string)
    ensures (a + b) + (c + d + e) + (f + g) == a + b + c + d + e + f + g
  {
  }

  lemma FrontShown(text: string, date: DateText)
    ensures InFront(CLOSING, text, Reminder(date)) == TURN_START + "\n" + REMINDER_START + date + REMINDER_END + "\n" + TURN_END + "\n\n" + text
    ensures InFront("\n" + TURN_END, "", Reminder(date)) == TURN_START + "\n" + REMINDER_START + date + REMINDER_END + "\n" + TURN_END
  {
    Flattened(TURN_START, "\n", REMINDER_START, date, REMINDER_END, "\n", TURN_END);
    var front := TURN_START + "\n" + REMINDER_START + date + REMINDER_END + "\n" + TURN_END;
    Assoc(Lead(false) + Reminder(date), "\n" + TURN_END, "\n\n");
    assert front + "" == front;
  }

  lemma SecondRefresh(m: Message, front: string, reminder: string)
    ensures RefreshMessage(Message(m.content.WithFirst(front), Some(m.original.GetOr(m.content))), reminder)
      == Message(m.content.WithFirst(RefreshText(front, Some(m.original.GetOr(m.content).FirstText()), reminder)), Some(m.original.GetOr(m.content)))
  {
    SameFirst(m.content, front, RefreshText(front, Some(m.original.GetOr(m.content).FirstText()), reminder));
  }

  /** When the date of a message can be replaced. */
  predicate Replaceable(m: Message) {
    Known(m.content.FirstText(), OriginalText(m.original))
      || ClosingTail(Closing(m.content), m.content.FirstText(), m.original.value.FirstText())
  }

  /**
   For every message, the last date wins exactly if nothing was put in front before, or what the
   user wrote is at the end of the text, or is the text with some of the closing lines before it.
   */
  lemma LastReminderWins(m: Message, first: DateText, second: DateText)
    ensures RefreshMessage(RefreshMessage(m, Reminder(first)), Reminder(second)) == RefreshMessage(m, Reminder(second)) <==> Replaceable(m)
  {
    var text, user := m.content.FirstText(), OriginalText(m.original);
    if !Known(text, user) {
      Grows(m, first, second);
    } else if m.content.HasText() {
      KnownTwice(text, user, first, second);
      SecondRefresh(m, RefreshText(text, user, Reminder(first)), Reminder(second));
    } else {
      var closing := Closing(m.content);
      FirstRefresh(m, first);
      FirstRefresh(m, second);
      SecondRefresh(m, InFront(closing, "", Reminder(first)), Reminder(second));
      NoText(closing, first, Reminder(second));
    }
  }

  lemma NoText(closing: string, first: DateText, reminder: string)
    ensures RefreshText(InFront(closing, "", Reminder(first)), Some(""), reminder) == InFront(closing, "", reminder)
  {
    var s := InFront(closing, "", Reminder(first));
    assert s + "" == s == Lead(false) + Reminder(first) + closing;
    KnownAgain(s, "", reminder);
    ReminderReplaced(false, first, closing, reminder);
  }

  /** Where the date cannot be replaced, a refresh after a refresh makes the text longer than one refresh does. */
  lemma Grows(m: Message, first: DateText, second: DateText)
    requires !Known(m.content.FirstText(), OriginalText(m.original))
    ensures var once := RefreshMessage(m, Reminder(second));
      var twice := RefreshMessage(RefreshMessage(m, Reminder(first)), Reminder(second));
      (Replaceable(m) ==> twice == once)
      && (!Replaceable(m) ==> |twice.content.FirstText()| > |once.content.FirstText()|)
  {
    var closing, text, user := Closing(m.content), m.content.FirstText(), m.original.value.FirstText();
    FirstRefresh(m, first);
    FirstRefresh(m, second);
    SecondRefresh(m, InFront(closing, text, Reminder(first)), Reminder(second));
    UnknownTwice(closing, text, user, first, second);
    SameFirst(m.content, InFront(closing, text, Reminder(second)), "");
    SameFirst(m.content, RefreshText(InFront(closing, text, Reminder(first)), Some(user), Reminder(second)), "");
  }

  // ---------------------------------------------------------------- the emotion block

  predicate Includes(content: Content, part: string) {
    match content
    case Text(text) => Contains(text, part)
    case Parts(parts) => exists i :: 0 <= i < |parts| && parts[i].TextPart? && Contains(parts[i].text, part)
  }

  function ReplaceContentBlock(content: Content, start: string, end: string, replacement: string): Content {
    match content
    case Text(text) => Text(ReplaceBlock(text, start, end, replacement))
    case Parts(parts) => Parts(seq(|parts|, i requires 0 <= i < |parts| =>
        if parts[i].TextPart? then TextPart(ReplaceBlock(parts[i].text, start, end, replacement)) else parts[i]))
  }

  function EmotionBlock(text: string): string {
    EMOTION_START + text + EMOTION_END
  }

  function OwnLines(text: string): (s: string)
    ensures NoAngle(text) ==> NoAngle(s)
  {
    "\n" + text + "\n"
  }

  /** The emotion of a turn, refreshed in a message that something was put in front of. */
  function RefreshEmotion(m: Message, emotion: string): Message {
    if m.original.None? || !Includes(m.content, TURN_START) || Trim(emotion) == "" then m
    else m.(content := ReplaceContentBlock(m.content, EMOTION_START, EMOTION_END, EmotionBlock(OwnLines(Trim(emotion)))))
  }

  lemma EmotionMarkers()
    ensures Marker(EMOTION_START) && |EMOTION_START| > 10 && EMOTION_START[1] == '!' && EMOTION_START[10] == 'e' && Marker(EMOTION_END)
    ensures Marker(TURN_START) && |TURN_START| > 10 && TURN_START[10] == 't'
    ensures Marker(TURN_END) && |TURN_END| > 10 && TURN_END[10] == 't'
  {
  }

  /** The first emotion block is the user's own where nothing before it has one. */
  lemma NoEmotionBefore(date: DateText, right: string, k: nat)
    requires k < |InFront(CLOSING, "", Reminder(date))|
    ensures !At(InFront(CLOSING, "", Reminder(date)) + right, k, EMOTION_START)
  {
    var a := Lead(false);
    var b := REMINDER_START + date + REMINDER_END;
    var c := "\n" + TURN_END + "\n\n" + right;
    assert InFront(CLOSING, "", Reminder(date)) + right == a + b + c;
    assert (a + b + c)[k] == if k < |a| then a[k] else if k < |a + b| then b[k - |a|] else c[k - |a + b|];
    EmotionMarkers();
    if k < |a| {
      assert At(a + b + c, 0, TURN_START);
      if k < |TURN_START| {
        Apart(a + b + c, 0, TURN_START, EMOTION_START, 10, k);
      } else {
        NotIn(a + b + c, EMOTION_START, k);
      }
    } else if k < |a + b| {
      NoEmotionInReminder(a, date, c, k);
    } else {
      NoEmotionInClosing(a + b, right, k);
    }
  }

  lemma NoEmotionInReminder(left: string, date: DateText, right: string, k: nat)
    requires |left| <= k < |left + Reminder(date)|
    ensures !At(left + (REMINDER_START + date + REMINDER_END) + right, k, EMOTION_START)
  {
    var s := left + (REMINDER_START + date + REMINDER_END) + right;
    EmotionMarkers();
    ReminderMarkers();
    if k < |left + REMINDER_START| {
      assert At(s, |left|, REMINDER_START);
      Apart(s, |left|, REMINDER_START, EMOTION_START, 1, k);
    } else if k < |left + REMINDER_START + date| {
      assert s[k] == date[k - |left + REMINDER_START|];
      NotIn(s, EMOTION_START, k);
    } else {
      assert At(s, |left + REMINDER_START + date|, REMINDER_END);
      Apart(s, |left + REMINDER_START + date|, REMINDER_END, EMOTION_START, 1, k);
    }
  }

  lemma NoEmotionInClosing(left: string, right: string, k: nat)
    requires |left| <= k < |left + CLOSING|
    ensures !At(left + ("\n" + TURN_END + "\n\n" + right), k, EMOTION_START)
  {
    var s := left + ("\n" + TURN_END + "\n\n" + right);
    EmotionMarkers();
    assert At(s, |left| + 1, TURN_END);
    if |left| < k <= |left + TURN_END| {
      Apart(s, |left| + 1, TURN_END, EMOTION_START, 10, k);
    } else {
      assert s[k] == '\n';
      NotIn(s, EMOTION_START, k);
    }
  }

  lemma UserBlockReplaced(date: DateText, body: DateText, replacement: string)
    ensures var front := InFront(CLOSING, "", Reminder(date));
      ReplaceBlock(front + EmotionBlock(body), EMOTION_START, EMOTION_END, replacement) == front + replacement
  {
    var front := InFront(CLOSING, "", Reminder(date));
    EmotionMarkers();
    forall k | 0 <= k < |front| ensures !At(front + EmotionBlock(body), k, EMOTION_START) {
      NoEmotionBefore(date, EmotionBlock(body), k);
    }
    IndexIs(front + EmotionBlock(body), EMOTION_START, 0, |front|);
    Assoc(front, EMOTION_START + body, EMOTION_END);
    Assoc(front, EMOTION_START, body);
    assert front + EmotionBlock(body) == front + EMOTION_START + body + EMOTION_END + "";
    BlockReplaced(front, EMOTION_START, body, EMOTION_END, "", replacement);
    assert front + replacement + "" == front + replacement;
  }

  lemma BodyEqual(front: string, start: string, a: DateText, b: DateText)
    requires Marker(start) && EndsWith(front + (start + a), start + b)
    ensures a == b
  {
    var x, y := front + (start + a), start + b;
    var i := |x| - |y|;
    assert x[i..] == y && x[|front|] == '<';
    if i < |front| {
      assert false;
    } else if i > |front| {
      assert x[i..][0] == x[i];
      OneAngle(front, start, a, i);
    } else {
      assert start + a == start + b;
      assert (start + a)[|start|..] == a && (start + b)[|start|..] == b;
    }
  }

  lemma OneAngle(front: string, start: string, a: DateText, i: nat)
    requires Marker(start) && |front| < i < |front + (start + a)|
    ensures (front + (start + a))[i] != '<'
  {
    var k := i - |front|;
    assert (front + (start + a))[i] == (start + a)[k] == if k < |start| then start[k] else a[k - |start|];
  }

  lemma EndsWithBoth(s: string, tail: string, end: string)
    ensures EndsWith(s + end, tail + end) <==> EndsWith(s, tail)
  {
    if |tail| <= |s| {
      var x, y := s[|s| - |tail|..], (s + end)[|s| - |tail|..];
      assert y == x + end;
      assert y[..|tail|] == x && (tail + end)[..|tail|] == tail;
    }
  }

  /** Two emotion blocks with different texts do not end one another. */
  lemma BlocksDiffer(front: string, a: DateText, b: DateText)
    requires a != b
    ensures !EndsWith(front + EmotionBlock(a), EmotionBlock(b))
  {
    EmotionMarkers();
    assert front + EmotionBlock(a) == front + (EMOTION_START + a) + EMOTION_END;
    EndsWithBoth(front + (EMOTION_START + a), EMOTION_START + b, EMOTION_END);
    if EndsWith(front + (EMOTION_START + a), EMOTION_START + b) {
      BodyEqual(front, EMOTION_START, a, b);
    }
  }

  lemma NotClosing(text: string, body: DateText)
    ensures !ClosingTail(CLOSING, text, EmotionBlock(body))
  {
    EmotionMarkers();
    var user := EmotionBlock(body);
    assert user[0] == '<' && user[10] == 'e';
    forall n: nat | n < |CLOSING| ensures user != CLOSING[n..] + text {
      assert (CLOSING[n..] + text)[0] == CLOSING[n];
      if n == 1 {
        assert (CLOSING[n..] + text)[10] == TURN_END[10];
      } else {
        assert CLOSING[n] != '<';
      }
    }
  }

  /**
   How such a message comes about: the user's own text has the markers of an emotion block. The date
   is put in front of it, then the emotion is refreshed, which rewrites the user's block. From then on
   the date cannot be replaced.
   */
  lemma EmotionBreaks(body: DateText, date: DateText, emotion: string, first: DateText, second: DateText)
    requires Trim(emotion) != "" && NoAngle(Trim(emotion)) && body != OwnLines(Trim(emotion))
    ensures var m := Written(body, date, emotion);
      !Replaceable(m) && RefreshMessage(RefreshMessage(m, Reminder(first)), Reminder(second)) != RefreshMessage(m, Reminder(second))
  {
    WrittenText(body, date, emotion);
    BlockStuck(InFront(CLOSING, "", Reminder(date)), OwnLines(Trim(emotion)), body, first, second);
  }

  lemma BlockStuck(front: string, text: DateText, body: DateText, first: DateText, second: DateText)
    requires text != body
    ensures var m := Message(Text(front + EmotionBlock(text)), Some(Text(EmotionBlock(body))));
      !Replaceable(m) && RefreshMessage(RefreshMessage(m, Reminder(first)), Reminder(second)) != RefreshMessage(m, Reminder(second))
  {
    BlocksDiffer(front, text, body);
    NotClosing(front + EmotionBlock(text), body);
    Stuck(front + EmotionBlock(text), EmotionBlock(body), first, second);
  }

  lemma Stuck(text: string, user: string, first: DateText, second: DateText)
    requires !EndsWith(text, user) && !ClosingTail(CLOSING, text, user)
    ensures var m := Message(Text(text), Some(Text(user)));
      !Replaceable(m) && RefreshMessage(RefreshMessage(m, Reminder(first)), Reminder(second)) != RefreshMessage(m, Reminder(second))
  {
    LastReminderWins(Message(Text(text), Some(Text(user))), first, second);
  }

  function Written(body: DateText, date: DateText, emotion: string): Message {
    RefreshEmotion(RefreshMessage(Message(Text(EmotionBlock(body)), None), Reminder(date)), emotion)
  }

  lemma WrittenText(body: DateText, date: DateText, emotion: string)
    requires Trim(emotion) != ""
    ensures Written(body, date, emotion)
      == Message(Text(InFront(CLOSING, "", Reminder(date)) + EmotionBlock(OwnLines(Trim(emotion)))), Some(Text(EmotionBlock(body))))
  {
    var user := EmotionBlock(body);
    var front := InFront(CLOSING, "", Reminder(date));
    FirstRefresh(Message(Text(user), None), date);
    FrontJoined(Reminder(date), user);
    assert At(front + user, 0, TURN_START);
    UserBlockReplaced(date, body, EmotionBlock(OwnLines(Trim(emotion))));
  }

  lemma FrontJoined(reminder: string, text: string)
    ensures InFront(CLOSING, text, reminder) == InFront(CLOSING, "", reminder) + text
    ensures TURN_START <= InFront(CLOSING, text, reminder)
  {
  }

  /** The same for one message. */
  lemma MessageExample()
    ensures var m := Written(HOPE, MONDAY, CALM);
      RefreshMessage(RefreshMessage(m, Reminder(TUESDAY)), Reminder(MONDAY)) != RefreshMessage(m, Reminder(MONDAY))
  {
    CalmBlock();
    EmotionBreaks(HOPE, MONDAY, CALM, TUESDAY, MONDAY);
  }

  lemma CalmBlock()
    ensures Trim(CALM) == CALM != "" && OwnLines(Trim(CALM)) != HOPE && NoAngle(CALM)
  {
  }

  const HOPE: DateText := "hope"
  const CALM := "calm"
  const MONDAY: DateText := "Monday"
  const TUESDAY: DateText := "Tuesday"

  /** The first emotion block of a text is rewritten, and nothing around it. */
  lemma EmotionReplaced(m: Message, left: string, body: string, right: string, emotion: string)
    requires m.original.Some? && NoAngle(body) && !Contains(left, EMOTION_START) && Trim(emotion) != ""
    requires m.content == Text(left + EMOTION_START + body + EMOTION_END + right) && Contains(m.content.text, TURN_START)
    ensures RefreshEmotion(m, emotion) ==
      Message(Text(left + (EMOTION_START + ("\n" + Trim(emotion) + "\n") + EMOTION_END) + right), m.original)
  {
    FirstBlockReplaced(left, body, right, EmotionBlock(OwnLines(Trim(emotion))));
  }

  lemma FirstBlockReplaced(left: string, body: string, right: string, replacement: string)
    requires NoAngle(body) && !Contains(left, EMOTION_START)
    ensures ReplaceBlock(left + EMOTION_START + body + EMOTION_END + right, EMOTION_START, EMOTION_END, replacement) == left + replacement + right
  {
    EmotionMarkers();
    FirstStart(left, EMOTION_START, body + EMOTION_END + right);
    assert left + EMOTION_START + (body + EMOTION_END + right) == left + EMOTION_START + body + EMOTION_END + right;
    BlockReplaced(left, EMOTION_START, body, EMOTION_END, right, replacement);
  }

  /** The first start marker after text without one, whatever that ends with. */
  lemma FirstStart(left: string, start: string, right: string)
    requires Marker(start) && !Contains(left, start)
    ensures IndexOf(left + start + right, start, 0) == Some(|left|)
  {
    var s := left + start + right;
    assert s[|left|..|left| + |start|] == start && s[|left|] == '<';
    forall k | 0 <= k < |left| ensures !At(s, k, start) {
      if k + |start| <= |left| {
        assert s[k..k + |start|] == left[k..k + |start|];
        assert !At(left, k, start);
      } else if At(s, k, start) {
        AtChar(s, k, start, |left| - k);
      }
    }
    IndexIs(s, start, 0, |left|);
  }

  /** Of a message in parts, every text is refreshed by itself, and no other part is touched. */
  lemma EmotionByParts(m: Message, emotion: string, i: nat)
    requires m.content.Parts? && i < |m.content.parts|
    requires m.original.Some? && Trim(emotion) != "" && (exists k :: 0 <= k < |m.content.parts| && m.content.parts[k].TextPart? && Contains(m.content.parts[k].text, TURN_START))
    ensures var t := RefreshEmotion(m, emotion);
      && t.original == m.original && t.content.Parts? && |t.content.parts| == |m.content.parts|
      && t.content.parts[i] == match m.content.parts[i]
           case OtherPart(id) => OtherPart(id)
           case TextPart(text) => TextPart(ReplaceBlock(text, EMOTION_START, EMOTION_END, EMOTION_START + ("\n" + Trim(emotion) + "\n") + EMOTION_END))
  {
  }

  /** A message nothing was put in front of, or without the runtime's block in it, stays as it is; so does any for a blank emotion. */
  lemma EmotionUntouched(m: Message, emotion: string)
    requires m.original.None? || Trim(emotion) == "" || (m.content.Text? && !Contains(m.content.text, TURN_START))
      || (m.content.Parts? && forall k :: 0 <= k < |m.content.parts| ==> m.content.parts[k].OtherPart? || !Contains(m.content.parts[k].text, TURN_START))
    ensures RefreshEmotion(m, emotion) == m
  {
  }

  // ---------------------------------------------------------------- refreshing in place

  class UserMessage {
    var content: Content
    var original: Option<Content>

    constructor (content: Content, original: Option<Content>)
      ensures View() == Message(content, original)
    {
      this.content, this.original := content, original;
    }

    function View(): Message
      reads this
    {
      Message(content, original)
    }

    method Refresh(reminder: string)
      modifies this
      ensures View() == RefreshMessage(old(View()), reminder)
    {
      var text := content.FirstText();
      var n := PrefixLength(text, OriginalText(original));
      var prefix := Prefix(text[..n], reminder);
      var refreshed := prefix + text[n..];
      ghost var was := View();
      assert refreshed == RefreshText(text, OriginalText(original), reminder);
      assert !content.HasText() ==> refreshed == prefix;
      content, original := content.WithFirst(if content.HasText() then refreshed else TrimEnd(prefix)), Some(original.GetOr(content));
      assert View() == RefreshMessage(was, reminder);
    }
  }

  method StripDate(system: string) returns (prompt: string)
    ensures prompt == WithoutDate(system)
  {
    var start := LastIndexOf(system, DATE_START, |system|);
    var end := if start.None? then None else IndexOf(system, DATE_END, start.value);
    prompt := if end.None? then system else system[..start.value] + system[end.value + |DATE_END|..];
    assert prompt == DateCut(system);
    prompt := TrimEnd(prompt);
  }

  /** The system prompt with today's date; the last user message gets it in place. */
  method RefreshRuntimeDateContext(system: Option<string>, users: seq<UserMessage>, date: DateText, reminder: DateText) returns (prompt: string)
    modifies if users == [] then {} else {users[|users| - 1]}
    ensures prompt == RefreshDate(system.GetOr(""), date)
    ensures users != [] ==> users[|users| - 1].View() == RefreshMessage(old(users[|users| - 1].View()), Reminder(reminder))
  {
    prompt := StripDate(system.GetOr(""));
    if users != [] {
      users[|users| - 1].Refresh(Reminder(reminder));
    }
    prompt := Attached(prompt, DateBlock(date));
  }
}

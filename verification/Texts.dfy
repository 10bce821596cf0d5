/** Trimming texts and taking them apart into lines, as JavaScript does. */
module Texts {
  /** The white space and line terminators that trimming removes. */
  predicate IsSpace(c: char) {
    var n := c as int;
    || 0x09 <= n <= 0x0D || n == 0x20 || n == 0xA0 || n == 0x1680 || 0x2000 <= n <= 0x200A
    || n == 0x2028 || n == 0x2029 || n == 0x202F || n == 0x205F || n == 0x3000 || n == 0xFEFF
  }

  function TrimStart(s: string): (t: string)
    ensures |t| <= |s| && (t != "" ==> !IsSpace(t[0]))
    ensures s == "" || !IsSpace(s[0]) ==> t == s
    decreases |s|
  {
    if s != "" && IsSpace(s[0]) then TrimStart(s[1..]) else s
  }

  function TrimEnd(s: string): (t: string)
    ensures t <= s && (t != "" ==> !IsSpace(t[|t| - 1]))
    ensures s == "" || !IsSpace(s[|s| - 1]) ==> t == s
    decreases |s|
  {
    if s != "" && IsSpace(s[|s| - 1]) then TrimEnd(s[..|s| - 1]) else s
  }

  function Trim(s: string): (t: string)
    ensures |t| <= |s| && Trimmed(t)
    ensures Trimmed(s) ==> t == s
  {
    TrimEnd(TrimStart(s))
  }

  predicate Trimmed(s: string) {
    s == "" || (!IsSpace(s[0]) && !IsSpace(s[|s| - 1]))
  }

  /** Only the end of a text that has been trimmed at the start can still be trimmed. */
  lemma {:induction false} TrimStartOn(s: string, t: string)
    ensures TrimStart(s + t) == if TrimStart(s) == "" then TrimStart(t) else TrimStart(s) + t
    decreases |s|
  {
    if s == "" {
      assert s + t == t;
    } else if IsSpace(s[0]) {
      assert (s + t)[1..] == s[1..] + t;
      TrimStartOn(s[1..], t);
    }
  }

  lemma {:induction false} TrimEndSpace(s: string, c: char)
    requires IsSpace(c)
    ensures TrimEnd(s + [c]) == TrimEnd(s)
  {
  }

  /** White space around a text does not matter. */
  lemma TrimAround(s: string, c: char)
    requires IsSpace(c)
    ensures Trim(s + [c]) == Trim(s) && Trim([c] + s) == Trim(s)
  {
    assert ([c] + s)[1..] == s;
    TrimStartOn(s, [c]);
    assert TrimStart([c]) == "";
    if TrimStart(s) == "" {
      assert TrimStart(s + [c]) == "";
    } else {
      TrimEndSpace(TrimStart(s), c);
    }
  }

  predicate AllSpace(s: string) {
    forall i :: 0 <= i < |s| ==> IsSpace(s[i])
  }

  lemma {:induction false} TrimStartExactly(s: string) returns (left: string)
    ensures s == left + TrimStart(s) && AllSpace(left)
    decreases s
  {
    left := "";
    if s != "" && IsSpace(s[0]) {
      left := TrimStartExactly(s[1..]);
      left := [s[0]] + left;
    }
  }

  lemma {:induction false} TrimEndExactly(s: string) returns (right: string)
    ensures s == TrimEnd(s) + right && AllSpace(right)
    decreases |s|
  {
    right := "";
    if s != "" && IsSpace(s[|s| - 1]) {
      right := TrimEndExactly(s[..|s| - 1]);
      right := right + [s[|s| - 1]];
    }
  }

  /** Trimming takes white space off both ends, and nothing else. */
  lemma TrimExactly(s: string) returns (left: string, right: string)
    ensures s == left + Trim(s) + right && AllSpace(left) && AllSpace(right)
    ensures Trim(s) != "" ==> !IsSpace(Trim(s)[0]) && !IsSpace(Trim(s)[|Trim(s)| - 1])
  {
    left := TrimStartExactly(s);
    right := TrimEndExactly(TrimStart(s));
  }

  lemma Assoc<T>(a: seq<T>, b: seq<T>, c: seq<T>)
    ensures a + b + c == a + (b + c)
  {
  }

  lemma ConcatEnds<T>(a: seq<T>, b: seq<T>)
    requires a != []
    ensures (a + b)[0] == a[0]
    ensures if b == [] then a + b == a else (a + b)[|a + b| - 1] == b[|b| - 1]
  {
  }

  // ---------------------------------------------------------------- lines

  predicate Line(s: string) {
    forall i :: 0 <= i < |s| ==> s[i] != '\n'
  }

  predicate Lines(ls: seq<string>) {
    forall i :: 0 <= i < |ls| ==> Line(ls[i])
  }

  function Split(s: string): (ls: seq<string>)
    ensures ls != [] && Lines(ls)
  {
    if s == "" then [""]
    else if s[0] == '\n' then [""] + Split(s[1..])
    else
      var rest := Split(s[1..]);
      [[s[0]] + rest[0]] + rest[1..]
  }

  function Join(ls: seq<string>): string {
    if ls == [] then "" else if |ls| == 1 then ls[0] else ls[0] + "\n" + Join(ls[1..])
  }

  lemma {:induction false} JoinSplit(s: string)
    ensures Join(Split(s)) == s
  {
    if s != "" {
      JoinSplit(s[1..]);
      var rest := Split(s[1..]);
      if s[0] == '\n' {
        assert Split(s)[1..] == rest;
      } else if |rest| > 1 {
        assert Split(s)[1..] == rest[1..];
      }
    }
  }

  lemma {:induction false} SplitLine(s: string)
    requires Line(s)
    ensures Split(s) == [s]
  {
    if s != "" {
      SplitLine(s[1..]);
      assert [s[0]] + s[1..] == s;
    }
  }

  /** Splitting is done line by line. */
  lemma {:induction false} SplitOn(s: string, t: string)
    ensures Split(s + "\n" + t) == Split(s) + Split(t)
    decreases |s|
  {
    if s == "" {
      assert (s + "\n" + t)[1..] == t;
    } else {
      assert (s + "\n" + t)[1..] == s[1..] + "\n" + t;
      SplitOn(s[1..], t);
    }
  }

  lemma {:induction false} JoinOn(a: seq<string>, b: seq<string>)
    requires a != [] && b != []
    ensures Join(a + b) == Join(a) + "\n" + Join(b)
    decreases |a|
  {
    if |a| == 1 {
      assert (a + b)[1..] == b;
    } else {
      assert (a + b)[1..] == a[1..] + b;
      JoinOn(a[1..], b);
    }
  }

  lemma {:induction false} SplitJoin(ls: seq<string>)
    requires ls != [] && Lines(ls)
    ensures Split(Join(ls)) == ls
  {
    SplitLine(ls[0]);
    if |ls| > 1 {
      SplitJoin(ls[1..]);
      SplitOn(ls[0], Join(ls[1..]));
      assert ls == [ls[0]] + ls[1..];
    } else {
      assert ls == [ls[0]];
    }
  }

  function LastLonger(ls: seq<string>, c: char): seq<string>
    requires ls != []
  {
    ls[..|ls| - 1] + [ls[|ls| - 1] + [c]]
  }

  lemma LastOfMore(line: string, ls: seq<string>, c: char)
    requires ls != []
    ensures LastLonger([line] + ls, c) == [line] + LastLonger(ls, c)
  {
  }

  /** A character more at the end of the last line. */
  lemma {:induction false} SplitSnoc(s: string, c: char)
    requires c != '\n'
    ensures Split(s + [c]) == LastLonger(Split(s), c)
    decreases |s|
  {
    if s == "" {
      assert s + [c] == [c];
      SplitLine([c]);
    } else {
      var rest := Split(s[1..]);
      assert (s + [c])[1..] == s[1..] + [c];
      SplitSnoc(s[1..], c);
      if s[0] == '\n' {
        LastOfMore("", rest, c);
      } else if |rest| == 1 {
        assert [s[0]] + (rest[0] + [c]) == [s[0]] + rest[0] + [c];
      } else {
        LastOfMore(rest[0], rest[1..], c);
        LastOfMore([s[0]] + rest[0], rest[1..], c);
        assert rest == [rest[0]] + rest[1..];
      }
    }
  }

  // ---------------------------------------------------------------- parts of texts

  predicate At(s: string, i: nat, part: string) {
    i + |part| <= |s| && s[i..i + |part|] == part
  }

  predicate Contains(s: string, part: string) {
    exists i :: 0 <= i <= |s| && At(s, i, part)
  }

  lemma ContainsMore(s: string, part: string, left: string, right: string)
    requires Contains(s, part)
    ensures Contains(left + s + right, part)
  {
    var i :| 0 <= i <= |s| && At(s, i, part);
    assert At(left + s + right, |left| + i, part);
  }

  /** Trimming does not cut into anything that is trimmed itself. */
  lemma {:induction false} ContainsTrimStart(s: string, part: string)
    requires Contains(s, part) && part != "" && Trimmed(part)
    ensures Contains(TrimStart(s), part)
    decreases |s|
  {
    if s != "" && IsSpace(s[0]) {
      var i :| 0 <= i <= |s| && At(s, i, part);
      assert s[i] == part[0];
      assert At(s[1..], i - 1, part);
      ContainsTrimStart(s[1..], part);
    }
  }

  lemma {:induction false} ContainsTrimEnd(s: string, part: string)
    requires Contains(s, part) && part != "" && Trimmed(part)
    ensures Contains(TrimEnd(s), part)
    decreases |s|
  {
    if s != "" && IsSpace(s[|s| - 1]) {
      var i :| 0 <= i <= |s| && At(s, i, part);
      assert s[i + |part| - 1] == part[|part| - 1];
      assert At(s[..|s| - 1], i, part);
      ContainsTrimEnd(s[..|s| - 1], part);
    }
  }

  lemma {:induction false} TrimWithin(s: string, part: string)
    requires Contains(TrimStart(s), part)
    ensures Contains(s, part)
    decreases |s|
  {
    if s != "" && IsSpace(s[0]) {
      TrimWithin(s[1..], part);
      ContainsMore(s[1..], part, [s[0]], "");
      assert [s[0]] + s[1..] + "" == s;
    }
  }

  lemma ContainsTrim(s: string, part: string)
    requires part != "" && Trimmed(part)
    ensures Contains(Trim(s), part) <==> Contains(s, part)
  {
    var t := TrimStart(s);
    if Contains(s, part) {
      ContainsTrimStart(s, part);
      ContainsTrimEnd(t, part);
    } else if Contains(TrimEnd(t), part) {
      ContainsMore(TrimEnd(t), part, "", t[|TrimEnd(t)|..]);
      assert "" + TrimEnd(t) + t[|TrimEnd(t)|..] == t;
      TrimWithin(s, part);
    }
  }
}

/** `_replace_labels`: the rewrite of an sklearn clustering docstring that
    swaps the description of `labels_` under its `Attributes` heading for one
    that speaks of a list of per-sequence arrays.

    The docstring is split into lines as `str.splitlines` does, the lines are
    scanned for the heading, the first `labels_` entry after it and the first
    blank line after that, and the text between the two is replaced by
    character offsets computed from the lines rejoined with `"\n"`. */
module ClusterDoc {
  import opened Wrappers

  /** `str.isspace` for a single character. */
  predicate IsSpace(c: char)
  {
    var x := c as int;
    (9 <= x <= 13) || (28 <= x <= 32) || x == 0x85 || x == 0xA0 || x == 0x1680
    || (0x2000 <= x <= 0x200A) || x == 0x2028 || x == 0x2029 || x == 0x202F
    || x == 0x205F || x == 0x3000
  }

  /** The characters at which `str.splitlines` ends a line; `"\r\n"` counts
      as one break. */
  predicate IsLineBreak(c: char)
  {
    var x := c as int;
    (10 <= x <= 13) || (28 <= x <= 30) || x == 0x85 || x == 0x2028 || x == 0x2029
  }

  function StripLeft(s: string): string
  {
    if |s| > 0 && IsSpace(s[0]) then StripLeft(s[1..]) else s
  }

  function StripRight(s: string): string
  {
    if |s| > 0 && IsSpace(s[|s| - 1]) then StripRight(s[..|s| - 1]) else s
  }

  /** `str.strip()`. */
  function Strip(s: string): string
  {
    StripRight(StripLeft(s))
  }

  /** `StripLeft` cuts a run of white space from the front and stops at the
      first other character. */
  lemma {:induction false} StripLeftCuts(s: string)
    ensures |StripLeft(s)| <= |s| && StripLeft(s) == s[|s| - |StripLeft(s)|..]
    ensures StripLeft(s) == [] || !IsSpace(StripLeft(s)[0])
    ensures forall k :: 0 <= k < |s| - |StripLeft(s)| ==> IsSpace(s[k])
    decreases |s|
  {
    if |s| > 0 && IsSpace(s[0]) {
      StripLeftCuts(s[1..]);
    }
  }

  /** `StripRight` cuts a run of white space from the back and stops at the
      last other character. */
  lemma {:induction false} StripRightCuts(s: string)
    ensures |StripRight(s)| <= |s| && StripRight(s) == s[..|StripRight(s)|]
    ensures StripRight(s) == [] || !IsSpace(StripRight(s)[|StripRight(s)| - 1])
    ensures forall k :: |StripRight(s)| <= k < |s| ==> IsSpace(s[k])
    decreases |s|
  {
    if |s| > 0 && IsSpace(s[|s| - 1]) {
      StripRightCuts(s[..|s| - 1]);
    }
  }

  /** A line strips to nothing exactly when it is all white space. */
  lemma StripEmptyIffBlank(s: string)
    ensures Strip(s) == [] <==> forall k :: 0 <= k < |s| ==> IsSpace(s[k])
  {
    var l := StripLeft(s);
    StripLeftCuts(s);
    StripRightCuts(l);
    if !forall k :: 0 <= k < |s| ==> IsSpace(s[k]) {
      var k :| 0 <= k < |s| && !IsSpace(s[k]);
      assert l[k - (|s| - |l|)] == s[k];
    }
  }

  /** The stripped line is a slice of the line with only white space cut
      from either end, and with none left at either end. */
  lemma StripIsSlice(s: string)
    ensures exists i, j ::
      (0 <= i <= j <= |s| && Strip(s) == s[i..j]
       && (forall k :: 0 <= k < i ==> IsSpace(s[k]))
       && (forall k :: j <= k < |s| ==> IsSpace(s[k])))
    ensures Strip(s) == [] || (!IsSpace(Strip(s)[0]) && !IsSpace(Strip(s)[|Strip(s)| - 1]))
  {
    var l := StripLeft(s);
    var i := |s| - |l|;
    StripLeftCuts(s);
    StripRightCuts(l);
    var r := StripRight(l);
    assert Strip(s) == s[i..i + |r|];
    forall k | i + |r| <= k < |s|
      ensures IsSpace(s[k])
    {
      assert s[k] == l[k - i];
    }
  }

  /** The index of the first line break in `s`, or `|s|`. */
  function BreakAt(s: string): (k: nat)
    ensures k <= |s|
    ensures k < |s| ==> IsLineBreak(s[k])
    ensures forall j :: 0 <= j < k ==> !IsLineBreak(s[j])
  {
    if |s| == 0 || IsLineBreak(s[0]) then 0 else 1 + BreakAt(s[1..])
  }

  /** How many characters the break at `k` takes up. */
  function BreakWidth(s: string, k: nat): nat
    requires k < |s|
  {
    if s[k] == '\r' && k + 1 < |s| && s[k + 1] == '\n' then 2 else 1
  }

  /** `str.splitlines()`: the lines without their breaks; a break at the very
      end does not start another line. */
  function SplitLines(s: string): (lines: seq<string>)
    decreases |s|
  {
    if |s| == 0 then []
    else
      var k := BreakAt(s);
      if k == |s| then [s] else [s[..k]] + SplitLines(s[k + BreakWidth(s, k)..])
  }

  /** `'\n'.join(lines)`. */
  function Join(lines: seq<string>): string
  {
    if |lines| == 0 then ""
    else if |lines| == 1 then lines[0]
    else Join(lines[..|lines| - 1]) + "\n" + lines[|lines| - 1]
  }

  /** `len('\n'.join(lines[:i])) + 1`, where the scan records the start of
      the `labels_` line. */
  function LineStart(lines: seq<string>, i: nat): nat
    requires i <= |lines|
  {
    |Join(lines[..i])| + 1
  }

  /** `len('\n'.join(lines[:i + 1]))`, where the scan records the end of the
      blank line. */
  function LineEnd(lines: seq<string>, i: nat): nat
    requires i < |lines|
  {
    |Join(lines[..i + 1])|
  }

  predicate IsAttributesHeading(line: string)
  {
    Strip(line) == "Attributes"
  }

  predicate IsLabelsEntry(line: string)
  {
    var s := Strip(line);
    |s| >= 7 && s[..7] == "labels_"
  }

  predicate IsBlank(line: string)
  {
    Strip(line) == ""
  }

  /** The three kinds of line the scan looks for. */
  datatype Kind = Heading | Entry | Blank

  predicate Is(kind: Kind, line: string)
  {
    match kind
    case Heading => IsAttributesHeading(line)
    case Entry => IsLabelsEntry(line)
    case Blank => IsBlank(line)
  }

  /** The first line at or after `from` of the given kind. */
  function FindFrom(lines: seq<string>, from: nat, kind: Kind): (r: Option<nat>)
    ensures r.Some? ==> from <= r.value < |lines| && Is(kind, lines[r.value])
    ensures r.Some? ==> forall k :: from <= k < r.value ==> !Is(kind, lines[k])
    ensures r.None? ==> forall k :: from <= k < |lines| ==> !Is(kind, lines[k])
    decreases |lines| - from
  {
    if from >= |lines| then None
    else if Is(kind, lines[from]) then Some(from)
    else FindFrom(lines, from + 1, kind)
  }

  /** The heading never reads as a `labels_` entry. */
  lemma HeadingIsNotEntry(line: string)
    requires IsAttributesHeading(line)
    ensures !IsLabelsEntry(line)
  {
    var s := Strip(line);
    assert s[0] == 'A';
    assert s[..7][0] == s[0];
  }

  /** A `labels_` entry is never blank. */
  lemma EntryIsNotBlank(line: string)
    requires IsLabelsEntry(line)
    ensures !IsBlank(line)
  {
  }

  /** The heading; the first `labels_` entry at or after it; the first blank
      line after that entry. Each is looked for only once the one before it
      is found. */
  function Marks(lines: seq<string>): (m: (Option<nat>, Option<nat>, Option<nat>))
    ensures m.0 == FindFrom(lines, 0, Heading)
    ensures m.1 == if m.0.Some? then FindFrom(lines, m.0.value, Entry) else None
    ensures m.2 == if m.1.Some? then FindFrom(lines, m.1.value + 1, Blank) else None
    ensures m.1.Some? ==> m.0.Some? && m.0.value < m.1.value
    ensures m.2.Some? ==> m.1.Some? && m.1.value < m.2.value
  {
    var a := FindFrom(lines, 0, Heading);
    var l := if a.Some? then FindFrom(lines, a.value, Entry) else None;
    var b := if l.Some? then FindFrom(lines, l.value + 1, Blank) else None;
    assert l.Some? ==> a.value < l.value by {
      if l.Some? {
        HeadingIsNotEntry(lines[a.value]);
      }
    }
    (a, l, b)
  }

  /** The `labels_` line and the blank line that close the rewritten span,
      when the heading, the entry and the blank line all exist. */
  function Locate(lines: seq<string>): (r: Option<(nat, nat)>)
    ensures r.Some? <==> Marks(lines).2.Some?
    ensures r.Some? ==> 0 < r.value.0 < r.value.1 < |lines|
    ensures r.Some? ==> r.value == (Marks(lines).1.value, Marks(lines).2.value)
  {
    var m := Marks(lines);
    if m.2.Some? then Some((m.1.value, m.2.value)) else None
  }

  const NewEntryLine: string := "    labels_ : list of arrays, each of shape [sequence_length, ]"
  const NewDescriptionLine: string := "        The label of each point is an integer in [0, n_clusters)."

  /** The text that takes the place of the old `labels_` entry: the two new
      lines and an empty one, joined with `"\n"`. */
  const Replacement: string := Join([NewEntryLine, NewDescriptionLine, ""])

  /** The replacement is the two new lines, each ended by a newline. */
  lemma ReplacementLines()
    ensures Replacement == NewEntryLine + "\n" + NewDescriptionLine + "\n"
  {
    JoinTwoAndEmpty(NewEntryLine, NewDescriptionLine);
  }

  lemma JoinTwoAndEmpty(x: string, y: string)
    ensures Join([x, y, ""]) == x + "\n" + y + "\n"
  {
    var parts := [x, y, ""];
    assert parts[..2] == [x, y];
    assert [x, y][..1] == [x];
    assert Join([x, y]) == x + "\n" + y;
    assert Join(parts) == Join([x, y]) + "\n" + "";
  }

  /** Python truthiness of `None`-or-integer. */
  predicate Truthy(o: Option<nat>)
  {
    o.Some? && o.value != 0
  }

  // ---------------------------------------------------------------------
  // Facts about Join

  lemma JoinSnoc(lines: seq<string>, i: nat)
    requires 0 < i < |lines|
    ensures Join(lines[..i + 1]) == Join(lines[..i]) + "\n" + lines[i]
  {
    assert lines[..i + 1][..i] == lines[..i];
  }

  lemma {:induction false} JoinCons(x: string, rest: seq<string>)
    requires |rest| > 0
    ensures Join([x] + rest) == x + "\n" + Join(rest)
    decreases |rest|
  {
    var all := [x] + rest;
    var n := |rest|;
    assert all[..|all| - 1] == [x] + rest[..n - 1];
    if n == 1 {
      assert Join([x] + rest[..n - 1]) == x;
    } else {
      JoinCons(x, rest[..n - 1]);
    }
  }

  /** A longer run of lines joins to a longer text. */
  lemma {:induction false} JoinGrows(lines: seq<string>, j: nat, k: nat)
    requires j <= k <= |lines|
    ensures |Join(lines[..j])| <= |Join(lines[..k])|
    ensures 0 < j < k ==> |Join(lines[..j])| + 1 + |lines[j]| <= |Join(lines[..k])|
    decreases k - j
  {
    if j < k {
      JoinGrows(lines, j + 1, k);
      if j == 0 {
        assert lines[..1] == [lines[0]];
      } else {
        JoinSnoc(lines, j);
      }
    }
  }

  /** The lines of a prefix join to a prefix of the whole, followed by a
      newline unless the prefix is everything. */
  lemma {:induction false} JoinPrefix(lines: seq<string>, k: nat)
    requires 0 < k <= |lines|
    ensures Join(lines[..k]) <= Join(lines)
    ensures k < |lines| ==> |Join(lines[..k])| < |Join(lines)| && Join(lines)[|Join(lines[..k])|] == '\n'
    decreases |lines|
  {
    var n := |lines|;
    if k < n {
      var front := lines[..n - 1];
      assert front[..k] == lines[..k];
      assert lines[..n] == lines;
      JoinSnoc(lines, n - 1);
      if k < n - 1 {
        JoinPrefix(front, k);
      }
    } else {
      assert lines[..k] == lines;
    }
  }

  /** Rejoining the lines never gives more text than was split: each break
      of one or two characters comes back as one. */
  lemma {:induction false} JoinSplitBound(doc: string, k: nat)
    requires k <= |SplitLines(doc)|
    ensures |Join(SplitLines(doc)[..k])| <= |doc|
    decreases |doc|
  {
    var lines := SplitLines(doc);
    if k == 1 {
      assert lines[..1] == [lines[0]];
    } else if k > 1 {
      var b := BreakAt(doc);
      var rest := doc[b + BreakWidth(doc, b)..];
      assert lines == [doc[..b]] + SplitLines(rest);
      assert lines[..k] == [doc[..b]] + SplitLines(rest)[..k - 1];
      JoinCons(doc[..b], SplitLines(rest)[..k - 1]);
      JoinSplitBound(rest, k - 1);
    }
  }

  /** Only `"\n"` ends lines in `doc`. */
  predicate OnlyNewlines(doc: string)
  {
    forall k :: 0 <= k < |doc| && IsLineBreak(doc[k]) ==> doc[k] == '\n'
  }

  /** The newline that ends `doc`, if any. */
  function TrailingNewline(doc: string): string
  {
    if |doc| > 0 && doc[|doc| - 1] == '\n' then "\n" else ""
  }

  lemma OnlyNewlinesSuffix(doc: string, i: nat)
    requires OnlyNewlines(doc) && i <= |doc|
    ensures OnlyNewlines(doc[i..])
  {
    forall k | 0 <= k < |doc| - i && IsLineBreak(doc[i..][k])
      ensures doc[i..][k] == '\n'
    {
      assert doc[i..][k] == doc[i + k];
    }
  }

  /** For a docstring whose lines end in `"\n"` alone, splitting and joining
      loses nothing but a final newline. */
  lemma {:induction false} JoinSplitLines(doc: string)
    requires OnlyNewlines(doc)
    ensures Join(SplitLines(doc)) + TrailingNewline(doc) == doc
    decreases |doc|
  {
    if |doc| > 0 {
      var b := BreakAt(doc);
      var lines := SplitLines(doc);
      if b < |doc| {
        assert doc[b] == '\n';
        var rest := doc[b + 1..];
        var more := SplitLines(rest);
        assert lines == [doc[..b]] + more;
        OnlyNewlinesSuffix(doc, b + 1);
        JoinSplitLines(rest);
        if |rest| == 0 {
          JoinSplitLast(doc, b, lines);
        } else {
          JoinSplitMiddle(doc, b, lines, more);
        }
      } else {
        assert lines == [doc];
        assert !IsLineBreak(doc[|doc| - 1]);
      }
    }
  }

  lemma JoinSplitLast(doc: string, b: nat, lines: seq<string>)
    requires b + 1 == |doc| && doc[b] == '\n'
    requires lines == [doc[..b]]
    ensures Join(lines) + TrailingNewline(doc) == doc
  {
    NewlineSplits(doc, b);
  }

  lemma JoinSplitMiddle(doc: string, b: nat, lines: seq<string>, more: seq<string>)
    requires b + 1 < |doc| && doc[b] == '\n'
    requires lines == [doc[..b]] + more
    requires Join(more) + TrailingNewline(doc[b + 1..]) == doc[b + 1..]
    requires |more| > 0
    ensures Join(lines) + TrailingNewline(doc) == doc
  {
    var line := doc[..b];
    var tail := doc[b + 1..];
    var t := TrailingNewline(doc);
    JoinCons(line, more);
    TrailingNewlineSuffix(doc, b + 1);
    NewlineSplits(doc, b);
    NewlineRegroups(line, Join(more), t, tail, doc);
  }

  lemma NewlineRegroups(line: string, rest: string, t: string, tail: string, doc: string)
    requires rest + t == tail && doc == line + "\n" + tail
    ensures line + "\n" + rest + t == doc
  {
  }

  /** A non-empty suffix ends the way the whole text does. */
  lemma TrailingNewlineSuffix(doc: string, i: nat)
    requires i < |doc|
    ensures TrailingNewline(doc[i..]) == TrailingNewline(doc)
  {
    var tail := doc[i..];
    assert |tail| == |doc| - i;
    assert tail[|tail| - 1] == doc[|doc| - 1];
  }

  lemma NewlineSplits(doc: string, b: nat)
    requires b < |doc| && doc[b] == '\n'
    ensures doc == doc[..b] + "\n" + doc[b + 1..]
  {
  }

  predicate NoBreaks(s: string)
  {
    forall k :: 0 <= k < |s| ==> !IsLineBreak(s[k])
  }

  lemma {:induction false} BreakAtEnd(x: string, t: string)
    requires NoBreaks(x)
    requires t == [] || IsLineBreak(t[0])
    ensures BreakAt(x + t) == |x|
    decreases |x|
  {
    var s := x + t;
    if |x| == 0 {
      assert s == t;
    } else {
      assert s[0] == x[0] && !IsLineBreak(x[0]);
      var x' := x[1..];
      assert NoBreaks(x') by {
        forall k | 0 <= k < |x'|
          ensures !IsLineBreak(x'[k])
        {
          assert x'[k] == x[k + 1];
        }
      }
      assert s[1..] == x' + t;
      BreakAtEnd(x', t);
      assert BreakAt(s) == 1 + BreakAt(s[1..]);
    }
  }

  lemma SplitLinesCons(x: string, rest: string)
    requires NoBreaks(x)
    requires |rest| > 0
    ensures SplitLines(x + "\n" + rest) == [x] + SplitLines(rest)
  {
    var s := x + "\n" + rest;
    assert s == x + ("\n" + rest);
    BreakAtEnd(x, "\n" + rest);
    var k := BreakAt(s);
    assert k == |x| && s[k] == '\n';
    assert BreakWidth(s, k) == 1;
    assert s[k + 1..] == rest;
    assert s[..k] == x;
    assert SplitLines(s) == [s[..k]] + SplitLines(s[k + BreakWidth(s, k)..]);
  }

  /** Lines free of breaks, the last one not empty, come back unchanged from
      being joined with `"\n"` and split again. */
  lemma {:induction false} SplitJoinLines(lines: seq<string>)
    requires forall i :: 0 <= i < |lines| ==> NoBreaks(lines[i])
    requires |lines| == 0 || lines[|lines| - 1] != ""
    ensures SplitLines(Join(lines)) == lines
    decreases |lines|
  {
    if |lines| == 1 {
      BreakAtEnd(lines[0], []);
      assert lines[0] + [] == lines[0];
    } else if |lines| > 1 {
      var more := lines[1..];
      assert lines == [lines[0]] + more;
      JoinCons(lines[0], more);
      SplitJoinLines(more);
      assert |Join(more)| > 0 by {
        JoinLast(more);
      }
      SplitLinesCons(lines[0], Join(more));
    }
  }

  /** The joined text ends with the last line. */
  lemma JoinLast(lines: seq<string>)
    requires |lines| > 0
    ensures |Join(lines)| >= |lines[|lines| - 1]|
  {
  }

  // ---------------------------------------------------------------------
  // The scan

  /** After `i` lines, `found` says whether the heading has been seen. */
  ghost predicate FoundOk(lines: seq<string>, i: nat, found: bool)
  {
    var a := Marks(lines).0;
    found <==> a.Some? && a.value < i
  }

  /** After `i` lines, `start` holds the start of the `labels_` line once it
      has been passed, and is `None` before. */
  ghost predicate StartOk(lines: seq<string>, i: nat, start: Option<nat>)
  {
    var l := Marks(lines).1;
    start == if l.Some? && l.value < i then Some(LineStart(lines, l.value)) else None
  }

  /** After `i` lines, `end` holds the end of the blank line once it has been
      passed, and is `None` before. */
  ghost predicate EndOk(lines: seq<string>, i: nat, end: Option<nat>)
  {
    var b := Marks(lines).2;
    end == if b.Some? && b.value < i then Some(LineEnd(lines, b.value)) else None
  }

  lemma StepFound(lines: seq<string>, i: nat, found: bool)
    requires i < |lines| && FoundOk(lines, i, found)
    ensures FoundOk(lines, i + 1, found || IsAttributesHeading(lines[i]))
  {
  }

  lemma StepStart(lines: seq<string>, i: nat, found: bool, start: Option<nat>)
    requires i < |lines| && FoundOk(lines, i + 1, found) && StartOk(lines, i, start)
    ensures Truthy(start) <==> start.Some?
    ensures StartOk(lines, i + 1,
      if found && !Truthy(start) && IsLabelsEntry(lines[i]) then Some(LineStart(lines, i)) else start)
  {
    var m := Marks(lines);
    if m.0.Some? && m.0.value <= i {
      FindStep(lines, m.0.value, Entry, i);
    }
  }

  lemma StepEnd(lines: seq<string>, i: nat, start: Option<nat>, end: Option<nat>)
    requires i < |lines| && StartOk(lines, i + 1, start) && EndOk(lines, i, end)
    ensures Truthy(start) <==> start.Some?
    ensures Truthy(end) <==> end.Some?
    ensures EndOk(lines, i + 1,
      if Truthy(start) && !Truthy(end) && IsBlank(lines[i]) then Some(LineEnd(lines, i)) else end)
  {
    EndTruthy(lines, i, end);
    var m := Marks(lines);
    if m.1.Some? && m.1.value == i {
      EntryIsNotBlank(lines[i]);
    }
    if m.1.Some? && m.1.value < i {
      FindStep(lines, m.1.value + 1, Blank, i);
    }
  }

  /** A recorded end is never 0, so `not end` is the `None` test. */
  lemma EndTruthy(lines: seq<string>, i: nat, end: Option<nat>)
    requires EndOk(lines, i, end)
    ensures Truthy(end) <==> end.Some?
  {
    var m := Marks(lines);
    if m.2.Some? {
      JoinSnoc(lines, m.2.value);
    }
  }

  /** The first line of a kind at or after `from`, among the first `i + 1`
      lines, is line `i` exactly when line `i` has the kind and no earlier
      one does. */
  lemma FindStep(lines: seq<string>, from: nat, kind: Kind, i: nat)
    requires from <= i < |lines|
    ensures var f := FindFrom(lines, from, kind);
            (f.Some? && f.value < i + 1)
            <==> (f.Some? && f.value < i) || (Is(kind, lines[i]) && !(f.Some? && f.value < i))
  {
  }

  /** Both offsets fall inside the docstring, the start before the end. */
  lemma OffsetsOrdered(doc: string, lines: seq<string>, l: nat, b: nat)
    requires lines == SplitLines(doc)
    requires 0 < l < b < |lines|
    ensures 0 < LineStart(lines, l) < LineEnd(lines, b) <= |doc|
  {
    StartBeforeEnd(lines, l, b);
    EndInDoc(doc, lines, b);
  }

  lemma EndInDoc(doc: string, lines: seq<string>, b: nat)
    requires lines == SplitLines(doc)
    requires b < |lines|
    ensures LineEnd(lines, b) <= |doc|
  {
    JoinSplitBound(doc, b + 1);
  }

  lemma StartBeforeEnd(lines: seq<string>, l: nat, b: nat)
    requires 0 < l < b < |lines|
    ensures 0 < LineStart(lines, l) < LineEnd(lines, b)
  {
    JoinGrows(lines, l + 1, b + 1);
    JoinSnoc(lines, l);
  }

  /** The loop of `_replace_labels`: one pass over the lines, recording the
      start of the first `labels_` entry at or after the heading and the end
      of the first blank line after it. */
  method Scan(lines: seq<string>) returns (labelStart: Option<nat>, labelEnd: Option<nat>)
    ensures StartOk(lines, |lines|, labelStart)
    ensures EndOk(lines, |lines|, labelEnd)
    ensures labelStart.Some? && labelEnd.Some? <==> Locate(lines).Some?
    ensures Locate(lines).Some? ==>
      labelStart == Some(LineStart(lines, Locate(lines).value.0))
      && labelEnd == Some(LineEnd(lines, Locate(lines).value.1))
  {
    labelStart := None;
    labelEnd := None;
    var foundAttributes := false;
    var i := 0;
    while i < |lines|
      invariant i <= |lines|
      invariant FoundOk(lines, i, foundAttributes)
      invariant StartOk(lines, i, labelStart)
      invariant EndOk(lines, i, labelEnd)
    {
      var line := lines[i];
      StepFound(lines, i, foundAttributes);
      if IsAttributesHeading(line) {
        foundAttributes := true;
      }
      StepStart(lines, i, foundAttributes, labelStart);
      if foundAttributes && !Truthy(labelStart) && IsLabelsEntry(line) {
        labelStart := Some(LineStart(lines, i));
      }
      StepEnd(lines, i, labelStart, labelEnd);
      if Truthy(labelStart) && !Truthy(labelEnd) && IsBlank(line) {
        labelEnd := Some(LineEnd(lines, i));
      }
      i := i + 1;
    }
  }

  /** Splicing `mid` in between `doc[..start]` and `doc[end..]` leaves both
      outer parts in place. */
  lemma SpliceKeepsEnds(doc: string, start: nat, end: nat, mid: string)
    requires start <= end <= |doc|
    ensures var r := doc[..start] + mid + doc[end..];
      r[..start] == doc[..start] && r[start + |mid|..] == doc[end..]
  {
  }

  /** `_replace_labels`. */
  method ReplaceLabels(doc: string) returns (r: string)
    ensures Locate(SplitLines(doc)).None? ==> r == doc
    ensures Locate(SplitLines(doc)).Some? ==>
      var lines := SplitLines(doc);
      var (l, b) := Locate(lines).value;
      var start := LineStart(lines, l);
      var end := LineEnd(lines, b);
      0 < start < end <= |doc|
      && r == doc[..start] + Replacement + doc[end..]
      && r[..start] == doc[..start]
      && r[start + |Replacement|..] == doc[end..]
  {
    var lines := SplitLines(doc);
    var labelStart, labelEnd := Scan(lines);
    if labelStart.None? || labelEnd.None? {
      return doc;
    }
    var (l, b) := Locate(lines).value;
    OffsetsOrdered(doc, lines, l, b);
    SpliceKeepsEnds(doc, labelStart.value, labelEnd.value, Replacement);
    r := doc[..labelStart.value] + Replacement + doc[labelEnd.value..];
  }

  /** Line `i > 0` sits in `doc` right after a newline, from `LineStart`
      to `LineEnd`. */
  predicate LineAt(doc: string, lines: seq<string>, i: nat)
    requires 0 < i < |lines|
  {
    var start := LineStart(lines, i);
    && 0 < start
    && LineEnd(lines, i) == start + |lines[i]| <= |doc|
    && doc[start - 1] == '\n'
    && doc[start..LineEnd(lines, i)] == lines[i]
  }

  lemma LineInDoc(doc: string, lines: seq<string>, i: nat)
    requires Join(lines) + TrailingNewline(doc) == doc
    requires 0 < i < |lines|
    ensures LineAt(doc, lines, i)
  {
    var pre := Join(lines[..i]);
    var whole := Join(lines[..i + 1]);
    JoinSnoc(lines, i);
    JoinPrefix(lines, i + 1);
    assert doc[..|whole|] == whole;
    assert whole[|pre|] == '\n';
    assert whole[|pre| + 1..] == lines[i];
  }

  /** Past line `i`, `doc` ends or goes on with a newline. */
  lemma AfterLineInDoc(doc: string, lines: seq<string>, i: nat)
    requires Join(lines) + TrailingNewline(doc) == doc
    requires i < |lines|
    ensures LineEnd(lines, i) == |doc| || (LineEnd(lines, i) < |doc| && doc[LineEnd(lines, i)] == '\n')
  {
    JoinPrefix(lines, i + 1);
    if i + 1 == |lines| {
      assert lines[..i + 1] == lines;
    }
  }

  /** In `doc`, line `l` begins at `LineStart` right after a newline, and
      line `b` ends at `LineEnd`, after a newline and where `doc` ends or
      goes on with a newline. */
  predicate Spans(doc: string, lines: seq<string>, l: nat, b: nat)
    requires l < b < |lines|
  {
    && 0 < l
    && LineAt(doc, lines, l)
    && LineAt(doc, lines, b)
    && (LineEnd(lines, b) == |doc| || (LineEnd(lines, b) < |doc| && doc[LineEnd(lines, b)] == '\n'))
  }

  /** Whenever the lines rejoin to the docstring, any two lines past the
      first sit in it as `Spans` says. */
  lemma LinesInDoc(doc: string, lines: seq<string>, l: nat, b: nat)
    requires Join(lines) + TrailingNewline(doc) == doc
    requires 0 < l < b < |lines|
    ensures Spans(doc, lines, l, b)
  {
    LineInDoc(doc, lines, l);
    LineInDoc(doc, lines, b);
    AfterLineInDoc(doc, lines, b);
  }

  /** For a docstring whose lines end in `"\n"` alone, the rewrite starts
      exactly where the `labels_` line begins and stops exactly where the
      blank line ends, so it removes those lines and what lies between. */
  lemma OffsetsInDoc(doc: string)
    requires OnlyNewlines(doc)
    requires Locate(SplitLines(doc)).Some?
    ensures Spans(doc, SplitLines(doc), Locate(SplitLines(doc)).value.0, Locate(SplitLines(doc)).value.1)
  {
    var lines := SplitLines(doc);
    var lb := Locate(lines).value;
    JoinSplitLines(doc);
    LinesInDoc(doc, lines, lb.0, lb.1);
  }
}

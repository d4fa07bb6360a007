/** Strings: the parts of Go's `strings` and `bufio` that the config rewriter uses. */
module Text {

  /** Unicode white space, which TrimSpace removes. */
  predicate IsSpace(c: char) {
    var u := c as int;
    0x09 <= u <= 0x0D || u in {0x20, 0x85, 0xA0, 0x1680, 0x2028, 0x2029, 0x202F, 0x205F, 0x3000} || 0x2000 <= u <= 0x200A
  }

  /** The 25 characters with the White_Space property. */
  lemma SpacesAre(c: char)
    ensures IsSpace(c) <==>
            c as int in {0x09, 0x0A, 0x0B, 0x0C, 0x0D, 0x20, 0x85, 0xA0, 0x1680,
                         0x2000, 0x2001, 0x2002, 0x2003, 0x2004, 0x2005, 0x2006, 0x2007, 0x2008, 0x2009, 0x200A,
                         0x2028, 0x2029, 0x202F, 0x205F, 0x3000}
  {
  }

  function TrimLeft(s: string): string {
    if s != [] && IsSpace(s[0]) then TrimLeft(s[1..]) else s
  }

  function TrimRight(s: string): string {
    if s != [] && IsSpace(s[|s| - 1]) then TrimRight(s[..|s| - 1]) else s
  }

  function TrimSpace(s: string): string { TrimRight(TrimLeft(s)) }

  /** Neither starts nor ends with white space. */
  predicate Trimmed(s: string) {
    s == [] || (!IsSpace(s[0]) && !IsSpace(s[|s| - 1]))
  }

  lemma {:induction false} TrimLeftFacts(s: string)
    ensures TrimLeft(s) == [] || !IsSpace(TrimLeft(s)[0])
    ensures forall c :: c in TrimLeft(s) ==> c in s
  {
    if s != [] && IsSpace(s[0]) {
      TrimLeftFacts(s[1..]);
    }
  }

  lemma {:induction false} TrimRightFacts(s: string)
    ensures TrimRight(s) <= s
    ensures TrimRight(s) == [] || !IsSpace(TrimRight(s)[|TrimRight(s)| - 1])
  {
    if s != [] && IsSpace(s[|s| - 1]) {
      TrimRightFacts(s[..|s| - 1]);
    }
  }

  lemma TrimSpaceFacts(s: string)
    ensures Trimmed(TrimSpace(s))
    ensures forall c :: c in TrimSpace(s) ==> c in s
  {
    TrimLeftFacts(s);
    TrimRightFacts(TrimLeft(s));
  }

  lemma TrimSpaceFixed(s: string)
    requires Trimmed(s)
    ensures TrimSpace(s) == s
  {
  }

  lemma {:induction false} TrimLeftKeepsEnd(s: string, c: char)
    requires IsSpace(c)
    ensures TrimLeft(s + [c]) == if TrimLeft(s) == [] then [] else TrimLeft(s) + [c]
  {
    if s == [] {
      assert (s + [c])[1..] == [];
    } else {
      assert (s + [c])[1..] == s[1..] + [c];
      if IsSpace(s[0]) {
        TrimLeftKeepsEnd(s[1..], c);
      }
    }
  }

  lemma TrimTrailingSpace(s: string, c: char)
    requires IsSpace(c)
    ensures TrimSpace(s + [c]) == TrimSpace(s)
  {
    TrimLeftKeepsEnd(s, c);
    var t := TrimLeft(s);
    assert (t + [c])[..|t|] == t;
  }

  lemma TrimLeadingSpace(c: char, s: string)
    requires IsSpace(c)
    ensures TrimSpace([c] + s) == TrimSpace(s)
  {
    assert ([c] + s)[1..] == s;
  }

  predicate AllSpaces(s: string) { forall c :: c in s ==> IsSpace(c) }

  /** Trimming takes away all white space around a text and nothing else. */
  lemma {:induction false} TrimSpaceOf(a: string, t: string, b: string)
    requires AllSpaces(a) && AllSpaces(b) && Trimmed(t)
    ensures TrimSpace(a + t + b) == t
    decreases |a| + |b|
  {
    if b != [] {
      var n := |b| - 1;
      TrimSpaceOf(a, t, b[..n]);
      assert a + t + b == a + t + b[..n] + [b[n]];
      TrimTrailingSpace(a + t + b[..n], b[n]);
    } else if a != [] {
      TrimSpaceOf(a[1..], t, b);
      assert a + t + b == [a[0]] + (a[1..] + t + b);
      TrimLeadingSpace(a[0], a[1..] + t + b);
    } else {
      assert a + t + b == t;
      TrimSpaceFixed(t);
    }
  }

  /** The position of the first `c`, or the length when there is none. */
  function Find(s: string, c: char): (i: nat)
    ensures i <= |s| && c !in s[..i]
    ensures i < |s| <==> c in s
    ensures i < |s| ==> s[i] == c
  {
    if s == [] || s[0] == c then 0
    else
      var i := 1 + Find(s[1..], c);
      assert s[..i] == [s[0]] + s[1..][..i - 1];
      i
  }

  lemma FindAt(a: string, c: char, b: string)
    requires c !in a
    ensures Find(a + [c] + b, c) == |a|
  {
    var s := a + [c] + b;
    var i := Find(s, c);
    assert s[|a|] == c;
    assert forall j :: 0 <= j < i ==> s[j] in s[..i];
    assert forall j :: 0 <= j < |a| ==> s[j] == a[j];
  }

  // ----- Files as lines -----

  function DropCR(s: string): string {
    if s != [] && s[|s| - 1] == '\r' then s[..|s| - 1] else s
  }

  lemma TrimIgnoresCR(s: string)
    ensures TrimSpace(DropCR(s)) == TrimSpace(s)
  {
    if DropCR(s) != s {
      assert s == DropCR(s) + ['\r'];
      TrimTrailingSpace(DropCR(s), '\r');
    }
  }

  /** The lines of a text as bufio.Scanner reads them: without the line end, and without one
      carriage return before it. */
  function ScanLines(text: string): seq<string>
    decreases |text|
  {
    if text == [] then []
    else
      var i := Find(text, '\n');
      if i == |text| then [DropCR(text)] else [DropCR(text[..i])] + ScanLines(text[i + 1..])
  }

  /** The text written back: every line ended by a line feed. */
  function WriteLines(lines: seq<string>): string {
    if lines == [] then "" else lines[0] + ['\n'] + WriteLines(lines[1..])
  }

  ghost predicate NoFeeds(lines: seq<string>) {
    forall i :: 0 <= i < |lines| ==> '\n' !in lines[i]
  }

  /** A line that reads back as it was written. */
  predicate Clean(line: string) {
    '\n' !in line && (line == [] || line[|line| - 1] != '\r')
  }

  ghost predicate AllClean(lines: seq<string>) {
    forall i :: 0 <= i < |lines| ==> Clean(lines[i])
  }

  lemma {:induction false} ScannedLinesHaveNoFeed(text: string)
    ensures NoFeeds(ScanLines(text))
    decreases |text|
  {
    if text != [] {
      var i := Find(text, '\n');
      if i < |text| {
        ScannedLinesHaveNoFeed(text[i + 1..]);
      }
    }
  }

  lemma ScanFirst(line: string, rest: string)
    requires '\n' !in line
    ensures ScanLines(line + ['\n'] + rest) == [DropCR(line)] + ScanLines(rest)
  {
    FindAt(line, '\n', rest);
    var text := line + ['\n'] + rest;
    assert text[..|line|] == line && text[|line| + 1..] == rest;
  }

  /** The first line written is the first line read, less a carriage return at its end. */
  lemma ReadBackFirst(line: string, lines: seq<string>)
    requires '\n' !in line
    ensures ScanLines(WriteLines([line] + lines)) == [DropCR(line)] + ScanLines(WriteLines(lines))
  {
    assert ([line] + lines)[1..] == lines;
    ScanFirst(line, WriteLines(lines));
  }

  /** Lines without line feeds read back as written exactly when none ends in a carriage return. */
  lemma {:induction false} ReadBackIffClean(lines: seq<string>)
    requires NoFeeds(lines)
    ensures ScanLines(WriteLines(lines)) == lines <==> AllClean(lines)
  {
    if lines != [] {
      var line, tail := lines[0], lines[1..];
      assert lines == [line] + tail;
      ReadBackFirst(line, tail);
      ReadBackIffClean(tail);
      assert DropCR(line) == line <==> Clean(line);
      SameHeadAndTail(DropCR(line), ScanLines(WriteLines(tail)), line, tail);
      assert AllClean(lines) <==> Clean(line) && AllClean(tail) by {
        assert forall i :: 0 < i < |lines| ==> lines[i] == tail[i - 1];
      }
    }
  }

  /** Lines without line feeds read back one for one, each less a carriage return at its end. */
  lemma {:induction false} ReadBackAt(lines: seq<string>)
    requires NoFeeds(lines)
    ensures |ScanLines(WriteLines(lines))| == |lines|
    ensures forall i :: 0 <= i < |lines| ==> ScanLines(WriteLines(lines))[i] == DropCR(lines[i])
  {
    if lines != [] {
      assert lines == [lines[0]] + lines[1..];
      ReadBackFirst(lines[0], lines[1..]);
      ReadBackAt(lines[1..]);
    }
  }

  /** Different numbers of lines without line feeds make different texts. */
  lemma LineCountsShow(xs: seq<string>, ys: seq<string>)
    requires NoFeeds(xs)
    requires NoFeeds(ys)
    requires |xs| != |ys|
    ensures WriteLines(xs) != WriteLines(ys)
  {
    ReadBackAt(xs);
    ReadBackAt(ys);
  }

  /** Clean lines that are written as the same text are the same lines. */
  lemma WritingIsInjective(xs: seq<string>, ys: seq<string>)
    requires AllClean(xs) && AllClean(ys) && WriteLines(xs) == WriteLines(ys)
    ensures xs == ys
  {
    ReadBackIffClean(xs);
    ReadBackIffClean(ys);
  }

  /** Carriage returns at the ends of written lines are gone once read and written again. */
  lemma {:induction false} RewritingShrinks(lines: seq<string>)
    requires NoFeeds(lines)
    ensures |WriteLines(ScanLines(WriteLines(lines)))| <= |WriteLines(lines)|
    ensures !AllClean(lines) ==> |WriteLines(ScanLines(WriteLines(lines)))| < |WriteLines(lines)|
  {
    if lines != [] {
      var line, tail := lines[0], lines[1..];
      assert lines == [line] + tail;
      ReadBackFirst(line, tail);
      RewritingShrinks(tail);
      var again := ScanLines(WriteLines(tail));
      assert ([DropCR(line)] + again)[1..] == again;
      assert Clean(line) && AllClean(tail) ==> AllClean(lines);
    }
  }

  /** A text scans to at least one line more than what follows one of its line feeds, and to
      more than that with another line feed before it. */
  lemma {:induction false} FeedEndsLine(x: string, rest: string)
    ensures |ScanLines(x + ['\n'] + rest)| >= 1 + |ScanLines(rest)| + (if '\n' in x then 1 else 0)
    decreases |x|
  {
    var text, i := x + ['\n'] + rest, Find(x, '\n');
    if i == |x| {
      FindAt(x, '\n', rest);
      assert text[|x| + 1..] == rest;
    } else {
      var more := x[i + 1..] + ['\n'] + rest;
      assert x == x[..i] + [x[i]] + x[i + 1..];
      assert text == x[..i] + ['\n'] + more;
      FindAt(x[..i], '\n', more);
      assert text[i + 1..] == more;
      FeedEndsLine(x[i + 1..], rest);
    }
  }

  /** A written line that holds a line feed is read back as more than one. */
  lemma {:induction false} FeedAddsLine(lines: seq<string>, i: nat)
    ensures |ScanLines(WriteLines(lines))| >= |lines|
    ensures i < |lines| && '\n' in lines[i] ==> |ScanLines(WriteLines(lines))| > |lines|
  {
    if lines != [] {
      FeedEndsLine(lines[0], WriteLines(lines[1..]));
      FeedAddsLine(lines[1..], if i == 0 then |lines| else i - 1);
    }
  }

  /** Every text is a number of lines ended by line feeds and a last part without one. */
  lemma {:induction false} TextSplits(text: string) returns (lines: seq<string>, last: string)
    ensures text == WriteLines(lines) + last && NoFeeds(lines) && '\n' !in last
    decreases |text|
  {
    var i := Find(text, '\n');
    if i == |text| {
      assert text[..i] == text;
      lines, last := [], text;
    } else {
      var rest;
      rest, last := TextSplits(text[i + 1..]);
      lines := [text[..i]] + rest;
      assert lines[1..] == rest;
      assert text == text[..i] + [text[i]] + text[i + 1..];
      assert text == text[..i] + ['\n'] + WriteLines(rest) + last;
    }
  }

  function DropCRs(lines: seq<string>): (r: seq<string>)
    ensures |r| == |lines| && forall i :: 0 <= i < |lines| ==> r[i] == DropCR(lines[i])
  {
    if lines == [] then [] else [DropCR(lines[0])] + DropCRs(lines[1..])
  }

  lemma ScanOnly(last: string)
    requires '\n' !in last
    ensures ScanLines(last) == if last == "" then [] else [DropCR(last)]
  {
  }

  lemma ScanOneMore(line: string, rest: string, read: seq<string>, more: seq<string>)
    requires '\n' !in line && ScanLines(rest) == read + more
    ensures ScanLines(line + ['\n'] + rest) == [DropCR(line)] + read + more
  {
    ScanFirst(line, rest);
    assert [DropCR(line)] + (read + more) == [DropCR(line)] + read + more;
  }

  lemma WriteOneMore(lines: seq<string>, last: string)
    requires lines != []
    ensures WriteLines(lines) + last == lines[0] + ['\n'] + (WriteLines(lines[1..]) + last)
  {
  }

  /** Its last part is one more line, unless it is empty. */
  lemma {:induction false} ScanLast(lines: seq<string>, last: string)
    requires NoFeeds(lines) && '\n' !in last
    ensures ScanLines(WriteLines(lines) + last) == DropCRs(lines) + if last == "" then [] else [DropCR(last)]
  {
    if lines == [] {
      assert WriteLines(lines) + last == last;
      ScanOnly(last);
    } else {
      ScanLast(lines[1..], last);
      WriteOneMore(lines, last);
      ScanOneMore(lines[0], WriteLines(lines[1..]) + last, DropCRs(lines[1..]), if last == "" then [] else [DropCR(last)]);
    }
  }

  /** What the lines of any text are: each ends at a line feed or at the end of the text, where
      an empty rest is no line, and loses one carriage return at its end. */
  lemma ScanSplits(text: string) returns (lines: seq<string>, last: string)
    ensures text == WriteLines(lines) + last && NoFeeds(lines) && '\n' !in last
    ensures |ScanLines(text)| == |lines| + if last == "" then 0 else 1
    ensures forall i :: 0 <= i < |lines| ==> LessCR(lines[i], ScanLines(text)[i])
    ensures last != "" ==> LessCR(last, ScanLines(text)[|lines|])
  {
    lines, last := TextSplits(text);
    ScanLast(lines, last);
    forall i | 0 <= i < |lines| ensures LessCR(lines[i], ScanLines(text)[i]) {
      LessCRIff(lines[i], ScanLines(text)[i]);
    }
    if last != "" {
      LessCRIff(last, ScanLines(text)[|lines|]);
    }
  }

  predicate LessCR(line: string, read: string) {
    line == read + "\r" || (line == read && (line == "" || line[|line| - 1] != '\r'))
  }

  lemma LessCRIff(line: string, read: string)
    ensures LessCR(line, read) <==> read == DropCR(line)
  {
  }

  lemma SameHeadAndTail<T>(x: T, xs: seq<T>, y: T, ys: seq<T>)
    ensures [x] + xs == [y] + ys <==> x == y && xs == ys
  {
    assert ([x] + xs)[0] == x && ([y] + ys)[0] == y;
    assert ([x] + xs)[1..] == xs && ([y] + ys)[1..] == ys;
  }
}

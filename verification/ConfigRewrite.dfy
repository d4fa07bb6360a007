/** OverwriteWithCustomConfig (cmd/strided/config_defaults.go): a scan over the lines of a
    config file that replaces the assignments to listed keys. */
module ConfigRewrite {
  import opened Text
  import opened MapKeys
  import opened Wrappers

  /** A string value is written with quotes, any other value in its default format. */
  datatype Val = Str(s: string) | Other(text: string)

  datatype SectionKeyValue = SectionKeyValue(section: string, key: string, val: Val)

  function Formatted(v: Val): string {
    match v
    case Str(s) => "\"" + s + "\""
    case Other(text) => text
  }

  // ----- What the list of values asks for -----

  /** The text for a key of a section: the last entry of the list wins. */
  function NewValue(skvs: seq<SectionKeyValue>, section: string, key: string): Option<string> {
    if skvs == [] then None
    else
      var last := skvs[|skvs| - 1];
      if last.section == section && last.key == key then Some(Formatted(last.val))
      else NewValue(skvs[..|skvs| - 1], section, key)
  }

  // ----- Lines -----

  predicate IsHeader(line: string) {
    line != [] && line[0] == '[' && line[|line| - 1] == ']'
  }

  function SectionName(line: string): string
    requires IsHeader(line)
  {
    line[1..|line| - 1]
  }

  predicate IsAssignment(line: string) { !IsHeader(line) && '=' in line }

  function KeyOf(line: string): string { TrimSpace(line[..Find(line, '=')]) }

  function ValueOf(line: string): string
    requires '=' in line
  {
    TrimSpace(line[Find(line, '=') + 1..])
  }

  function Assignment(key: string, value: string): string { key + " = " + value }

  /** The section in force before line `i`. */
  function SectionAt(lines: seq<string>, i: nat): string
    requires i <= |lines|
  {
    if i == 0 then ""
    else if IsHeader(lines[i - 1]) then SectionName(lines[i - 1])
    else SectionAt(lines, i - 1)
  }

  /** What becomes of a line that stands in `section`. */
  function NewLine(skvs: seq<SectionKeyValue>, section: string, line: string): string {
    if !IsAssignment(line) then line
    else
      match NewValue(skvs, section, KeyOf(line))
      case None => line
      case Some(v) => Assignment(KeyOf(line), v)
  }

  /** Every line replaced as its section asks. */
  function Rewritten(skvs: seq<SectionKeyValue>, lines: seq<string>): (out: seq<string>)
    ensures |out| == |lines|
  {
    if lines == [] then []
    else
      var n := |lines| - 1;
      Rewritten(skvs, lines[..n]) + [NewLine(skvs, SectionAt(lines, n), lines[n])]
  }

  /** The section of a line depends only on the lines before it. */
  lemma {:induction false} SectionAtPrefix(lines: seq<string>, m: nat, i: nat)
    requires i <= m <= |lines|
    ensures SectionAt(lines[..m], i) == SectionAt(lines, i)
  {
    if i > 0 {
      SectionAtPrefix(lines, m, i - 1);
    }
  }

  lemma {:induction false} RewrittenAt(skvs: seq<SectionKeyValue>, lines: seq<string>, i: nat)
    requires i < |lines|
    ensures Rewritten(skvs, lines)[i] == NewLine(skvs, SectionAt(lines, i), lines[i])
  {
    var n := |lines| - 1;
    var init := lines[..n];
    assert Rewritten(skvs, lines) == Rewritten(skvs, init) + [NewLine(skvs, SectionAt(lines, n), lines[n])];
    if i < n {
      RewrittenAt(skvs, init, i);
      SectionAtPrefix(lines, n, i);
      assert init[i] == lines[i];
    }
  }

  // ----- The code -----

  type ConfigMap = map<string, map<string, string>>

  function Listed(m: ConfigMap, section: string, key: string): Option<string> {
    if section in m && key in m[section] then Some(m[section][key]) else None
  }

  /** Groups the list by section; a later entry overwrites an earlier one. */
  method BuildConfigMap(skvs: seq<SectionKeyValue>) returns (m: ConfigMap)
    ensures forall s, k :: Listed(m, s, k) == NewValue(skvs, s, k)
  {
    m := map[];
    for i := 0 to |skvs|
      invariant forall s, k :: Listed(m, s, k) == NewValue(skvs[..i], s, k)
    {
      var skv := skvs[i];
      ghost var before := m;
      if skv.section !in m {
        m := m[skv.section := map[]];
      }
      m := m[skv.section := m[skv.section][skv.key := Formatted(skv.val)]];
      assert skvs[..i + 1][..i] == skvs[..i];
      forall s, k ensures Listed(m, s, k) == NewValue(skvs[..i + 1], s, k) {
        assert Listed(before, s, k) == NewValue(skvs[..i], s, k);
      }
    }
    assert skvs[..|skvs|] == skvs;
  }

  /** The loop over the sorted keys of a section, left at the first match. */
  method RewriteLine(values: map<string, string>, original: string) returns (line: string)
    ensures line == if '=' in original && KeyOf(original) in values
                    then Assignment(KeyOf(original), values[KeyOf(original)]) else original
  {
    line := original;
    ghost var target := KeyOf(original);
    var keys := StringMapKeys(values);
    var i := 0;
    while i < |keys|
      invariant 0 <= i <= |keys|
      invariant line == original
      invariant '=' in original ==> forall j :: 0 <= j < i ==> keys[j] != target
    {
      var key := keys[i];
      assert key in keys;
      var value := values[key];
      if '=' in line && KeyOf(line) == key {
        line := Assignment(key, value);
        return;
      }
      i := i + 1;
    }
    assert '=' in original ==> target !in keys;
  }

  /** The whole scan. */
  method OverwriteLines(skvs: seq<SectionKeyValue>, input: seq<string>) returns (lines: seq<string>)
    ensures lines == Rewritten(skvs, input)
  {
    var configMap := BuildConfigMap(skvs);
    lines := [];
    var currentSection := "";
    for i := 0 to |input|
      invariant currentSection == SectionAt(input, i)
      invariant lines == Rewritten(skvs, input[..i])
    {
      var line := input[i];
      assert Listed(configMap, currentSection, KeyOf(line)) == NewValue(skvs, currentSection, KeyOf(line));
      SectionAtPrefix(input, i + 1, i);
      assert input[..i + 1][..i] == input[..i];
      if IsHeader(line) {
        currentSection := SectionName(line);
      } else if currentSection in configMap {
        line := RewriteLine(configMap[currentSection], line);
      }
      lines := lines + [line];
    }
    assert input[..|input|] == input;
  }

  // ----- A rewritten line reads back -----

  lemma AssignmentReadsBack(key: string, value: string)
    requires Trimmed(key) && '=' !in key
    ensures '=' in Assignment(key, value)
    ensures KeyOf(Assignment(key, value)) == key
    ensures ValueOf(Assignment(key, value)) == TrimSpace(value)
  {
    var line := Assignment(key, value);
    assert line == key + " " + ['='] + (" " + value);
    FindAt(key + " ", '=', " " + value);
    assert line[|key| + 1] == '=';
    assert line[..|key| + 1] == key + " " && line[|key| + 2..] == " " + value;
    TrimTrailingSpace(key, ' ');
    TrimSpaceFixed(key);
    TrimLeadingSpace(' ', value);
  }

  lemma KeyOfIsPlain(line: string)
    ensures Trimmed(KeyOf(line)) && '=' !in KeyOf(line)
  {
    TrimSpaceFacts(line[..Find(line, '=')]);
  }

  // ----- When a rewrite keeps the structure of the file -----

  /** The written assignment would itself be taken for a section header. */
  predicate HeaderLike(key: string, value: string) {
    key != [] && key[0] == '[' && value != [] && value[|value| - 1] == ']'
  }

  lemma HeaderLikeIff(key: string, value: string)
    ensures IsHeader(Assignment(key, value)) <==> HeaderLike(key, value)
  {
    var line := Assignment(key, value);
    assert line[0] == if key == [] then ' ' else key[0];
    assert line[|line| - 1] == if value == [] then ' ' else value[|value| - 1];
  }

  /** No line is rewritten into something that looks like a header. */
  predicate LineSafe(skvs: seq<SectionKeyValue>, section: string, line: string) {
    IsAssignment(line) && NewValue(skvs, section, KeyOf(line)).Some? ==>
      !HeaderLike(KeyOf(line), NewValue(skvs, section, KeyOf(line)).value)
  }

  predicate SafeAt(skvs: seq<SectionKeyValue>, lines: seq<string>, i: nat)
    requires i < |lines|
  {
    LineSafe(skvs, SectionAt(lines, i), lines[i])
  }

  ghost predicate LinesSafe(skvs: seq<SectionKeyValue>, lines: seq<string>) {
    forall i :: 0 <= i < |lines| ==> SafeAt(skvs, lines, i)
  }

  lemma NewLineKeepsHeaders(skvs: seq<SectionKeyValue>, section: string, line: string)
    requires LineSafe(skvs, section, line)
    ensures IsHeader(NewLine(skvs, section, line)) <==> IsHeader(line)
    ensures IsHeader(line) ==> NewLine(skvs, section, line) == line
  {
    if IsAssignment(line) && NewValue(skvs, section, KeyOf(line)).Some? {
      HeaderLikeIff(KeyOf(line), NewValue(skvs, section, KeyOf(line)).value);
    }
  }

  lemma {:induction false} SectionsKept(skvs: seq<SectionKeyValue>, lines: seq<string>, i: nat)
    requires LinesSafe(skvs, lines) && i <= |lines|
    ensures SectionAt(Rewritten(skvs, lines), i) == SectionAt(lines, i)
  {
    if i > 0 {
      SectionsKept(skvs, lines, i - 1);
      RewrittenAt(skvs, lines, i - 1);
      assert SafeAt(skvs, lines, i - 1);
      NewLineKeepsHeaders(skvs, SectionAt(lines, i - 1), lines[i - 1]);
    }
  }

  /** What a line says: its section, key and value, if it is an assignment. */
  function Reading(lines: seq<string>, i: nat): Option<(string, string, string)>
    requires i < |lines|
  {
    if IsAssignment(lines[i]) then Some((SectionAt(lines, i), KeyOf(lines[i]), ValueOf(lines[i]))) else None
  }

  predicate Overwritten(skvs: seq<SectionKeyValue>, r: Option<(string, string, string)>) {
    r.Some? && NewValue(skvs, r.value.0, r.value.1).Some?
  }

  /** What a line that said `r` has to say afterwards. */
  function NewReading(skvs: seq<SectionKeyValue>, r: Option<(string, string, string)>): Option<(string, string, string)> {
    if Overwritten(skvs, r) then
      Some((r.value.0, r.value.1, TrimSpace(NewValue(skvs, r.value.0, r.value.1).value)))
    else r
  }

  /** A rewrite preserves the meaning of the lines: each says what it said, except that an
      assignment to a listed key now has the listed value. */
  lemma RewritePreservesMeaning(skvs: seq<SectionKeyValue>, lines: seq<string>, i: nat)
    requires LinesSafe(skvs, lines) && i < |lines|
    ensures Reading(Rewritten(skvs, lines), i) == NewReading(skvs, Reading(lines, i))
    ensures !Overwritten(skvs, Reading(lines, i)) ==> Rewritten(skvs, lines)[i] == lines[i]
  {
    var out := Rewritten(skvs, lines);
    SectionsKept(skvs, lines, i);
    RewrittenAt(skvs, lines, i);
    assert SafeAt(skvs, lines, i);
    NewLineKeepsHeaders(skvs, SectionAt(lines, i), lines[i]);
    if IsAssignment(lines[i]) && NewValue(skvs, SectionAt(lines, i), KeyOf(lines[i])).Some? {
      KeyOfIsPlain(lines[i]);
      AssignmentReadsBack(KeyOf(lines[i]), NewValue(skvs, SectionAt(lines, i), KeyOf(lines[i])).value);
    }
  }

  /** The lines `out` say what the rewrite asks of `lines`. */
  ghost predicate SaysAsAsked(skvs: seq<SectionKeyValue>, lines: seq<string>, out: seq<string>) {
    |out| == |lines| && forall i :: 0 <= i < |lines| ==> Reading(out, i) == NewReading(skvs, Reading(lines, i))
  }

  /** An assignment that becomes header-like says nothing any more. */
  lemma UnsafeLineIsLost(skvs: seq<SectionKeyValue>, lines: seq<string>, i: nat)
    requires i < |lines| && !SafeAt(skvs, lines, i)
    ensures IsHeader(Rewritten(skvs, lines)[i]) && Reading(Rewritten(skvs, lines), i).None?
    ensures NewReading(skvs, Reading(lines, i)).Some?
  {
    RewrittenAt(skvs, lines, i);
    HeaderLikeIff(KeyOf(lines[i]), NewValue(skvs, SectionAt(lines, i), KeyOf(lines[i])).value);
  }

  /** The lines keep their meaning exactly when none becomes header-like. */
  lemma MeaningKeptIff(skvs: seq<SectionKeyValue>, lines: seq<string>)
    ensures SaysAsAsked(skvs, lines, Rewritten(skvs, lines)) <==> LinesSafe(skvs, lines)
  {
    if LinesSafe(skvs, lines) {
      forall i | 0 <= i < |lines|
        ensures Reading(Rewritten(skvs, lines), i) == NewReading(skvs, Reading(lines, i))
      {
        RewritePreservesMeaning(skvs, lines, i);
      }
    } else {
      var i :| 0 <= i < |lines| && !SafeAt(skvs, lines, i);
      UnsafeLineIsLost(skvs, lines, i);
    }
  }

  /** A string value is written in quotes, and reads back with exactly its quotes. */
  lemma StringsReadBack(s: string)
    ensures Formatted(Str(s)) == "\"" + s + "\""
    ensures TrimSpace(Formatted(Str(s))) == Formatted(Str(s))
  {
    TrimSpaceFixed("\"" + s + "\"");
  }

  // ----- The scan without its own vocabulary -----

  function Bracketed(s: string): string { "[" + s + "]" }

  ghost predicate IsBracketed(line: string) { exists s :: line == Bracketed(s) }

  lemma IsHeaderIff(line: string)
    ensures IsHeader(line) <==> exists s :: line == "[" + s + "]"
    ensures IsHeader(line) <==> IsBracketed(line)
    ensures IsHeader(line) ==> line == Bracketed(SectionName(line))
  {
    if IsHeader(line) {
      assert line == "[" + line[1..|line| - 1] + "]";
      assert line == Bracketed(SectionName(line));
    }
  }

  lemma BracketedNames(s: string)
    ensures IsHeader(Bracketed(s)) && SectionName(Bracketed(s)) == s
  {
    IsHeaderIff(Bracketed(s));
  }

  /** The last line `[name]` before line `i` names section `s`; before the first there is only
      the section with the empty name. */
  ghost predicate InSection(lines: seq<string>, i: nat, s: string)
    requires i <= |lines|
  {
    || (exists j :: 0 <= j < i && lines[j] == Bracketed(s) && forall m :: j < m < i ==> !IsBracketed(lines[m]))
    || (s == "" && forall m :: 0 <= m < i ==> !IsBracketed(lines[m]))
  }

  lemma {:induction false} SectionAtIff(lines: seq<string>, i: nat, s: string)
    requires i <= |lines|
    ensures SectionAt(lines, i) == s <==> InSection(lines, i, s)
  {
    if i > 0 {
      var line := lines[i - 1];
      IsHeaderIff(line);
      if IsHeader(line) {
        BracketedNames(s);
        assert line == Bracketed(s) ==> InSection(lines, i, s);
      } else {
        SectionAtIff(lines, i - 1, s);
        StaysInSection(lines, i, s);
      }
    }
  }

  lemma StaysInSection(lines: seq<string>, i: nat, s: string)
    requires 0 < i <= |lines| && !IsBracketed(lines[i - 1])
    ensures InSection(lines, i, s) <==> InSection(lines, i - 1, s)
  {
    if j :| 0 <= j < i && lines[j] == Bracketed(s) && forall m :: j < m < i ==> !IsBracketed(lines[m]) {
      assert IsBracketed(lines[j]);
    }
  }

  /** A line is cut at its first equals sign, and both parts are trimmed. */
  lemma CutAtEquals(k: string, v: string)
    requires '=' !in k
    ensures '=' in k + "=" + v
    ensures KeyOf(k + "=" + v) == TrimSpace(k) && ValueOf(k + "=" + v) == TrimSpace(v)
  {
    var line := k + "=" + v;
    assert line == k + ['='] + v;
    FindAt(k, '=', v);
    assert line[|k|] == '=' && line[..|k|] == k && line[|k| + 1..] == v;
  }

  predicate Lists(skv: SectionKeyValue, s: string, k: string) { skv.section == s && skv.key == k }

  /** Entry `j` is the last of the list for the key. */
  predicate LastListed(skvs: seq<SectionKeyValue>, j: nat, s: string, k: string) {
    j < |skvs| && Lists(skvs[j], s, k) && forall m :: j < m < |skvs| ==> !Lists(skvs[m], s, k)
  }

  lemma {:induction false} NewValueIs(skvs: seq<SectionKeyValue>, s: string, k: string, j: nat)
    requires LastListed(skvs, j, s, k)
    ensures NewValue(skvs, s, k) == Some(Formatted(skvs[j].val))
  {
    var n := |skvs| - 1;
    if j < n {
      assert !Lists(skvs[n], s, k);
      NewValueIs(skvs[..n], s, k, j);
    }
  }

  lemma {:induction false} NoNewValueIff(skvs: seq<SectionKeyValue>, s: string, k: string)
    ensures NewValue(skvs, s, k).None? <==> forall j :: 0 <= j < |skvs| ==> !Lists(skvs[j], s, k)
  {
    if skvs != [] {
      var n := |skvs| - 1;
      NoNewValueIff(skvs[..n], s, k);
      assert forall j :: 0 <= j < n ==> skvs[..n][j] == skvs[j];
    }
  }

  /** In section `s`, a line `k=v` whose trimmed key is listed becomes the key, an equals sign
      between spaces, and the last listed value: a string in quotes, anything else as it is
      formatted. A string reads back with exactly its quotes. */
  lemma ListedLineIs(skvs: seq<SectionKeyValue>, lines: seq<string>, i: nat, s: string, k: string, v: string, j: nat)
    requires i < |lines| && InSection(lines, i, s) && !IsBracketed(lines[i])
    requires lines[i] == k + "=" + v && '=' !in k && LastListed(skvs, j, s, TrimSpace(k))
    ensures var out := Rewritten(skvs, lines)[i];
            && (skvs[j].val.Str? ==> out == TrimSpace(k) + " = " + ("\"" + skvs[j].val.s + "\""))
            && (skvs[j].val.Other? ==> out == TrimSpace(k) + " = " + skvs[j].val.text)
            && (skvs[j].val.Str? ==> IsAssignment(out) && KeyOf(out) == TrimSpace(k) && ValueOf(out) == "\"" + skvs[j].val.s + "\"")
  {
    SectionAtIff(lines, i, s);
    IsHeaderIff(lines[i]);
    CutAtEquals(k, v);
    NewValueIs(skvs, s, TrimSpace(k), j);
    RewrittenAt(skvs, lines, i);
    if skvs[j].val.Str? {
      var text := "\"" + skvs[j].val.s + "\"";
      KeyOfIsPlain(lines[i]);
      AssignmentReadsBack(TrimSpace(k), text);
      StringsReadBack(skvs[j].val.s);
      HeaderLikeIff(TrimSpace(k), text);
    }
  }

  /** Every other line stays as it is: a line `[name]`, a line without equals sign, and a line
      `k=v` whose trimmed key is not listed for its section. */
  lemma OtherLinesStay(skvs: seq<SectionKeyValue>, lines: seq<string>, i: nat, s: string, k: string, v: string)
    requires i < |lines| && InSection(lines, i, s)
    requires || IsBracketed(lines[i]) || '=' !in lines[i]
             || (lines[i] == k + "=" + v && '=' !in k && forall j :: 0 <= j < |skvs| ==> !Lists(skvs[j], s, TrimSpace(k)))
    ensures Rewritten(skvs, lines)[i] == lines[i]
  {
    SectionAtIff(lines, i, s);
    IsHeaderIff(lines[i]);
    RewrittenAt(skvs, lines, i);
    if IsAssignment(lines[i]) {
      CutAtEquals(k, v);
      NoNewValueIff(skvs, s, TrimSpace(k));
    }
  }

  // ----- Two rewrites compose -----

  lemma {:induction false} LaterListWins(a: seq<SectionKeyValue>, b: seq<SectionKeyValue>, s: string, k: string)
    ensures NewValue(a + b, s, k) == if NewValue(b, s, k).Some? then NewValue(b, s, k) else NewValue(a, s, k)
    decreases |b|
  {
    if b == [] {
      assert a + b == a;
    } else {
      assert (a + b)[..|a + b| - 1] == a + b[..|b| - 1];
      LaterListWins(a, b[..|b| - 1], s, k);
    }
  }

  /** The list with `f` applied to every text it asks for. */
  function MapValues(a: seq<SectionKeyValue>, f: string -> string): seq<SectionKeyValue> {
    if a == [] then []
    else
      var last := a[|a| - 1];
      MapValues(a[..|a| - 1], f) + [last.(val := Other(f(Formatted(last.val))))]
  }

  lemma {:induction false} MappedValue(a: seq<SectionKeyValue>, f: string -> string, s: string, k: string)
    ensures NewValue(MapValues(a, f), s, k) ==
            if NewValue(a, s, k).Some? then Some(f(NewValue(a, s, k).value)) else None
  {
    if a != [] {
      var init, last := a[..|a| - 1], a[|a| - 1];
      var mapped := last.(val := Other(f(Formatted(last.val))));
      MappedValue(init, f, s, k);
      assert (MapValues(init, f) + [mapped])[..|MapValues(init, f)|] == MapValues(init, f);
    }
  }

  lemma NewLineComposes(a: seq<SectionKeyValue>, b: seq<SectionKeyValue>, section: string, line: string)
    requires LineSafe(a, section, line)
    ensures NewLine(b, section, NewLine(a, section, line)) == NewLine(a + b, section, line)
  {
    if IsAssignment(line) {
      LaterListWins(a, b, section, KeyOf(line));
      if NewValue(a, section, KeyOf(line)).Some? {
        KeyOfIsPlain(line);
        AssignmentReadsBack(KeyOf(line), NewValue(a, section, KeyOf(line)).value);
        NewLineKeepsHeaders(a, section, line);
      }
    }
  }

  /** On lines, rewriting with `a` and then with `b` is one rewrite with `a` followed by `b`. */
  lemma SafeRewritesCompose(a: seq<SectionKeyValue>, b: seq<SectionKeyValue>, lines: seq<string>)
    requires LinesSafe(a, lines)
    ensures Rewritten(b, Rewritten(a, lines)) == Rewritten(a + b, lines)
  {
    var mid := Rewritten(a, lines);
    forall i | 0 <= i < |lines| ensures Rewritten(b, mid)[i] == Rewritten(a + b, lines)[i] {
      SectionsKept(a, lines, i);
      RewrittenAt(a, lines, i);
      RewrittenAt(b, mid, i);
      RewrittenAt(a + b, lines, i);
      assert SafeAt(a, lines, i);
      NewLineComposes(a, b, SectionAt(lines, i), lines[i]);
    }
  }

  lemma {:induction false} RewrittenWithNothing(lines: seq<string>)
    ensures Rewritten([], lines) == lines
  {
    if lines != [] {
      RewrittenWithNothing(lines[..|lines| - 1]);
    }
  }

  // ----- Files: the lines are written out and scanned again -----

  function RewrittenFile(skvs: seq<SectionKeyValue>, text: string): string {
    WriteLines(Rewritten(skvs, ScanLines(text)))
  }

  /** A section and key that some line of a scanned file can have. */
  predicate Matchable(section: string, key: string) {
    '\n' !in section && '\n' !in key && Trimmed(key) && '=' !in key
  }

  /** Every value that can be written stays on its line and is not taken for a header's end. */
  ghost predicate FileSafe(skvs: seq<SectionKeyValue>) {
    forall s, k :: Matchable(s, k) && NewValue(skvs, s, k).Some? ==>
      Clean(NewValue(skvs, s, k).value) && !HeaderLike(k, NewValue(skvs, s, k).value)
  }

  /** Files that scan to lines which read back as written. */
  ghost predicate CleanFile(text: string) { AllClean(ScanLines(text)) }

  ghost predicate ComposesOn(a: seq<SectionKeyValue>, b: seq<SectionKeyValue>, text: string) {
    RewrittenFile(b, RewrittenFile(a, text)) == RewrittenFile(a + b, text)
  }

  lemma {:induction false} SectionHasNoFeed(lines: seq<string>, i: nat)
    requires AllClean(lines) && i <= |lines|
    ensures '\n' !in SectionAt(lines, i)
  {
    if i > 0 {
      SectionHasNoFeed(lines, i - 1);
      assert Clean(lines[i - 1]);
    }
  }

  lemma KeyOfIsMatchable(section: string, line: string)
    requires '\n' !in section && '\n' !in line
    ensures Matchable(section, KeyOf(line))
  {
    TrimSpaceFacts(line[..Find(line, '=')]);
  }

  /** What is written for a line of a clean file is clean and keeps the structure. */
  lemma NewLineIsClean(skvs: seq<SectionKeyValue>, section: string, line: string)
    requires FileSafe(skvs) && '\n' !in section && Clean(line)
    ensures LineSafe(skvs, section, line) && Clean(NewLine(skvs, section, line))
  {
    KeyOfIsMatchable(section, line);
    if IsAssignment(line) && NewValue(skvs, section, KeyOf(line)).Some? {
      AssignmentIsClean(KeyOf(line), NewValue(skvs, section, KeyOf(line)).value);
    }
  }

  lemma AssignmentIsClean(key: string, value: string)
    requires '\n' !in key && Clean(value)
    ensures Clean(Assignment(key, value))
  {
    var out := Assignment(key, value);
    assert out[|out| - 1] == if value == [] then ' ' else value[|value| - 1];
  }

  /** A safe rewrite of a clean file keeps its structure and writes clean lines. */
  lemma SafeFileReadsBack(a: seq<SectionKeyValue>, text: string)
    requires FileSafe(a) && CleanFile(text)
    ensures LinesSafe(a, ScanLines(text)) && AllClean(Rewritten(a, ScanLines(text)))
  {
    var lines := ScanLines(text);
    var mid := Rewritten(a, lines);
    forall i | 0 <= i < |lines| ensures SafeAt(a, lines, i) && Clean(mid[i]) {
      SectionHasNoFeed(lines, i);
      RewrittenAt(a, lines, i);
      NewLineIsClean(a, SectionAt(lines, i), lines[i]);
    }
  }

  lemma FileRewritesCompose(a: seq<SectionKeyValue>, b: seq<SectionKeyValue>, text: string)
    requires AllClean(Rewritten(a, ScanLines(text))) && LinesSafe(a, ScanLines(text))
    ensures ComposesOn(a, b, text)
  {
    ReadBackIffClean(Rewritten(a, ScanLines(text)));
    SafeRewritesCompose(a, b, ScanLines(text));
  }

  // ----- What a rewritten file says -----

  /** The value written for a line has no line feed and, read back, is not header-like. */
  predicate ReadsBackAt(a: seq<SectionKeyValue>, lines: seq<string>, i: nat)
    requires i < |lines|
  {
    Overwritten(a, Reading(lines, i)) ==>
      var k := KeyOf(lines[i]);
      var v := NewValue(a, SectionAt(lines, i), k).value;
      '\n' !in v && !HeaderLike(k, DropCR(v))
  }

  ghost predicate ReadsBack(a: seq<SectionKeyValue>, lines: seq<string>) {
    forall i :: 0 <= i < |lines| ==> ReadsBackAt(a, lines, i)
  }

  /** What the list amounts to once the file is scanned again. */
  function Dropped(a: seq<SectionKeyValue>): seq<SectionKeyValue> { MapValues(a, DropCR) }

  lemma DroppedAssignment(key: string, value: string)
    ensures DropCR(Assignment(key, value)) == Assignment(key, DropCR(value))
  {
    var out := Assignment(key, value);
    assert out[|out| - 1] == if value == [] then ' ' else value[|value| - 1];
  }

  lemma DroppedLine(a: seq<SectionKeyValue>, section: string, line: string)
    requires Clean(line)
    ensures NewLine(Dropped(a), section, line) == DropCR(NewLine(a, section, line))
  {
    MappedValue(a, DropCR, section, KeyOf(line));
    if IsAssignment(line) && NewValue(a, section, KeyOf(line)).Some? {
      DroppedAssignment(KeyOf(line), NewValue(a, section, KeyOf(line)).value);
    }
  }

  lemma FeedIffInValue(a: seq<SectionKeyValue>, section: string, line: string)
    requires '\n' !in line
    ensures '\n' in NewLine(a, section, line) <==>
            IsAssignment(line) && NewValue(a, section, KeyOf(line)).Some? && '\n' in NewValue(a, section, KeyOf(line)).value
  {
    TrimSpaceFacts(line[..Find(line, '=')]);
  }

  /** Without line feeds in its values a rewritten clean file scans as the rewritten lines. */
  lemma ScannedAgain(a: seq<SectionKeyValue>, text: string)
    requires CleanFile(text)
    requires NoFeeds(Rewritten(a, ScanLines(text)))
    ensures ScanLines(RewrittenFile(a, text)) == Rewritten(Dropped(a), ScanLines(text))
  {
    var lines := ScanLines(text);
    var mid, out := Rewritten(a, lines), Rewritten(Dropped(a), lines);
    ReadBackAt(mid);
    forall i | 0 <= i < |lines| ensures out[i] == DropCR(mid[i]) {
      RewrittenAt(a, lines, i);
      RewrittenAt(Dropped(a), lines, i);
      DroppedLine(a, SectionAt(lines, i), lines[i]);
    }
  }

  lemma DroppedReading(a: seq<SectionKeyValue>, r: Option<(string, string, string)>)
    ensures NewReading(Dropped(a), r) == NewReading(a, r)
    ensures Overwritten(Dropped(a), r) <==> Overwritten(a, r)
  {
    if r.Some? {
      MappedValue(a, DropCR, r.value.0, r.value.1);
      if Overwritten(a, r) {
        TrimIgnoresCR(NewValue(a, r.value.0, r.value.1).value);
      }
    }
  }

  lemma ReadsBackAtIff(a: seq<SectionKeyValue>, lines: seq<string>, i: nat)
    requires i < |lines| && '\n' !in lines[i]
    ensures ReadsBackAt(a, lines, i) <==> '\n' !in Rewritten(a, lines)[i] && SafeAt(Dropped(a), lines, i)
  {
    RewrittenAt(a, lines, i);
    FeedIffInValue(a, SectionAt(lines, i), lines[i]);
    MappedValue(a, DropCR, SectionAt(lines, i), KeyOf(lines[i]));
  }

  lemma ReadsBackIff(a: seq<SectionKeyValue>, lines: seq<string>)
    requires NoFeeds(lines)
    ensures ReadsBack(a, lines) <==>
            NoFeeds(Rewritten(a, lines)) && LinesSafe(Dropped(a), lines)
  {
    forall i | 0 <= i < |lines|
      ensures ReadsBackAt(a, lines, i) <==> '\n' !in Rewritten(a, lines)[i] && SafeAt(Dropped(a), lines, i)
    {
      ReadsBackAtIff(a, lines, i);
    }
  }

  /** A rewritten file, scanned again, has as many lines, and each says what it has to say,
      exactly when no value written has a line feed or reads back header-like. */
  lemma FileMeaningKeptIff(a: seq<SectionKeyValue>, text: string)
    requires CleanFile(text)
    ensures SaysAsAsked(a, ScanLines(text), ScanLines(RewrittenFile(a, text))) <==> ReadsBack(a, ScanLines(text))
  {
    var lines := ScanLines(text);
    var mid := Rewritten(a, lines);
    ReadsBackIff(a, lines);
    if i :| 0 <= i < |lines| && '\n' in mid[i] {
      FeedAddsLine(mid, i);
    } else {
      ScannedAgain(a, text);
      MeaningKeptIff(Dropped(a), lines);
      forall i | 0 <= i < |lines| ensures NewReading(Dropped(a), Reading(lines, i)) == NewReading(a, Reading(lines, i)) {
        DroppedReading(a, Reading(lines, i));
      }
    }
  }

  /** Then a line that is not overwritten is also kept to the letter. */
  lemma FileRewritePreservesMeaning(a: seq<SectionKeyValue>, text: string, i: nat)
    requires CleanFile(text) && ReadsBack(a, ScanLines(text)) && i < |ScanLines(text)|
    ensures var lines, out := ScanLines(text), ScanLines(RewrittenFile(a, text));
            && |out| == |lines|
            && Reading(out, i) == NewReading(a, Reading(lines, i))
            && (!Overwritten(a, Reading(lines, i)) ==> out[i] == lines[i])
  {
    var lines := ScanLines(text);
    ReadsBackIff(a, lines);
    ScannedAgain(a, text);
    RewritePreservesMeaning(Dropped(a), lines, i);
    DroppedReading(a, Reading(lines, i));
  }

  /** A rewrite of a file done twice is then the rewrite done once. */
  lemma FileRewriteIsIdempotent(a: seq<SectionKeyValue>, text: string)
    requires CleanFile(text) && ReadsBack(a, ScanLines(text))
    ensures RewrittenFile(a, RewrittenFile(a, text)) == RewrittenFile(a, text)
  {
    var lines := ScanLines(text);
    ReadsBackIff(a, lines);
    ScannedAgain(a, text);
    SafeRewritesCompose(Dropped(a), a, lines);
    DroppedIsOverridden(a, lines);
  }

  lemma DroppedIsOverridden(a: seq<SectionKeyValue>, lines: seq<string>)
    ensures Rewritten(Dropped(a) + a, lines) == Rewritten(a, lines)
  {
    forall i | 0 <= i < |lines| ensures Rewritten(Dropped(a) + a, lines)[i] == Rewritten(a, lines)[i] {
      RewrittenAt(Dropped(a) + a, lines, i);
      RewrittenAt(a, lines, i);
      LaterListWins(Dropped(a), a, SectionAt(lines, i), KeyOf(lines[i]));
      MappedValue(a, DropCR, SectionAt(lines, i), KeyOf(lines[i]));
    }
  }

  // ----- Unsafe values break the law -----

  /** The list that asks for nothing but blank values, for the keys of `a`. */
  function Blanked(a: seq<SectionKeyValue>): seq<SectionKeyValue> { MapValues(a, (v: string) => "") }

  lemma BlankLineHasNoFeed(c: seq<SectionKeyValue>, section: string, line: string)
    requires '\n' !in line
    requires NewValue(c, section, KeyOf(line)).Some? ==> NewValue(c, section, KeyOf(line)).value == ""
    ensures '\n' !in NewLine(c, section, line)
  {
    FeedIffInValue(c, section, line);
  }

  lemma BlankedHasNoFeed(a: seq<SectionKeyValue>, lines: seq<string>)
    requires NoFeeds(lines)
    ensures NoFeeds(Rewritten(Blanked(a), lines))
    ensures NoFeeds(Rewritten(a + Blanked(a), lines))
  {
    var b := Blanked(a);
    forall i | 0 <= i < |lines| ensures '\n' !in Rewritten(b, lines)[i] && '\n' !in Rewritten(a + b, lines)[i] {
      var s, k := SectionAt(lines, i), KeyOf(lines[i]);
      MappedValue(a, (v: string) => "", s, k);
      LaterListWins(a, b, s, k);
      RewrittenAt(b, lines, i);
      RewrittenAt(a + b, lines, i);
      BlankLineHasNoFeed(b, s, lines[i]);
      BlankLineHasNoFeed(a + b, s, lines[i]);
    }
  }

  /** A value with a line feed becomes several lines, which the second rewrite keeps. */
  lemma LineFeedBreaks(a: seq<SectionKeyValue>, text: string, i: nat)
    requires i < |ScanLines(text)| && '\n' in Rewritten(a, ScanLines(text))[i]
    ensures !ComposesOn(a, Blanked(a), text)
  {
    var lines, again := ScanLines(text), ScanLines(RewrittenFile(a, text));
    ScannedLinesHaveNoFeed(text);
    ScannedLinesHaveNoFeed(RewrittenFile(a, text));
    FeedAddsLine(Rewritten(a, lines), i);
    BlankedHasNoFeed(a, lines);
    BlankedHasNoFeed(a, again);
    LineCountsShow(Rewritten(Blanked(a), again), Rewritten(a + Blanked(a), lines));
  }

  /** A line ending in a carriage return loses it when the file is scanned again. */
  lemma CarriageReturnBreaks(a: seq<SectionKeyValue>, text: string)
    requires NoFeeds(Rewritten(a, ScanLines(text)))
    requires !AllClean(Rewritten(a, ScanLines(text)))
    ensures !ComposesOn(a, [], text)
  {
    assert a + [] == a;
    RewrittenWithNothing(ScanLines(RewrittenFile(a, text)));
    RewritingShrinks(Rewritten(a, ScanLines(text)));
  }

  /** The list that asks for `w` at one key. */
  function Relist(s: string, k: string, w: string): seq<SectionKeyValue> { [SectionKeyValue(s, k, Other(w))] }

  lemma RelistedValue(a: seq<SectionKeyValue>, s: string, k: string, w: string, s': string, k': string)
    ensures NewValue(a + Relist(s, k, w), s', k') == if s == s' && k == k' then Some(w) else NewValue(a, s', k')
  {
    var b := Relist(s, k, w);
    LaterListWins(a, b, s', k');
    assert b[..0] == [] && NewValue([], s', k') == None;
  }

  lemma RelistedLineIsClean(a: seq<SectionKeyValue>, s: string, k: string, w: string, section: string, line: string)
    requires Clean(w) && '\n' !in line && Clean(NewLine(a, section, line))
    ensures Clean(NewLine(a + Relist(s, k, w), section, line))
  {
    RelistedValue(a, s, k, w, section, KeyOf(line));
    TrimSpaceFacts(line[..Find(line, '=')]);
    AssignmentIsClean(KeyOf(line), w);
  }

  lemma RelistedIsClean(a: seq<SectionKeyValue>, s: string, k: string, w: string, lines: seq<string>)
    requires Clean(w) && AllClean(Rewritten(a, lines))
    requires NoFeeds(lines)
    ensures AllClean(Rewritten(a + Relist(s, k, w), lines))
  {
    var c := a + Relist(s, k, w);
    forall i | 0 <= i < |lines| ensures Clean(Rewritten(c, lines)[i]) {
      RewrittenAt(a, lines, i);
      RewrittenAt(c, lines, i);
      RelistedLineIsClean(a, s, k, w, SectionAt(lines, i), lines[i]);
    }
  }

  /** A line that becomes header-like is hidden from the second rewrite. */
  lemma HeaderLikeBreaks(a: seq<SectionKeyValue>, text: string, i: nat)
    requires AllClean(Rewritten(a, ScanLines(text)))
    requires i < |ScanLines(text)| && !SafeAt(a, ScanLines(text), i)
    ensures var lines := ScanLines(text);
            var s, k := SectionAt(lines, i), KeyOf(lines[i]);
            !ComposesOn(a, Relist(s, k, NewValue(a, s, k).value + "!"), text)
  {
    var lines := ScanLines(text);
    var s, k := SectionAt(lines, i), KeyOf(lines[i]);
    var v := NewValue(a, s, k).value;
    var w := v + "!";
    var b, mid := Relist(s, k, w), Rewritten(a, lines);
    ScannedLinesHaveNoFeed(text);
    ReadBackIffClean(mid);
    RewrittenAt(a, lines, i);
    assert Clean(w) by { assert Clean(mid[i]) && mid[i] == Assignment(k, v); }
    RelistedIsClean(a, s, k, w, lines);
    RewrittenWithNothing(mid);
    RelistedIsClean([], s, k, w, mid);
    assert [] + b == b;
    UnsafeLineIsLost(a, lines, i);
    RewrittenAt(b, mid, i);
    RewrittenAt(a + b, lines, i);
    RelistedValue(a, s, k, w, s, k);
    assert |Rewritten(b, mid)[i]| < |Rewritten(a + b, lines)[i]|;
    if ComposesOn(a, b, text) {
      WritingIsInjective(Rewritten(b, mid), Rewritten(a + b, lines));
    }
  }

  /** For every file: rewriting it with `a` and then with any `b` is one rewrite with `a`
      followed by `b` exactly when the lines written are clean and none became header-like. */
  lemma FileComposesIff(a: seq<SectionKeyValue>, text: string)
    ensures (forall b :: ComposesOn(a, b, text)) <==>
            AllClean(Rewritten(a, ScanLines(text))) && LinesSafe(a, ScanLines(text))
  {
    var lines := ScanLines(text);
    var mid := Rewritten(a, lines);
    if i :| 0 <= i < |lines| && '\n' in mid[i] {
      LineFeedBreaks(a, text, i);
    } else if !AllClean(mid) {
      CarriageReturnBreaks(a, text);
    } else if i :| 0 <= i < |lines| && !SafeAt(a, lines, i) {
      HeaderLikeBreaks(a, text, i);
    } else {
      forall b ensures ComposesOn(a, b, text) {
        FileRewritesCompose(a, b, text);
      }
    }
  }

  // ----- The law over all clean files -----

  /** A file in which one line assigns to key `k` of section `s`. */
  function ProbeLines(s: string, k: string): seq<string> { ["[" + s + "]", k + "="] }

  function ProbeFile(s: string, k: string): string { WriteLines(ProbeLines(s, k)) }

  lemma ProbeScans(s: string, k: string)
    requires '\n' !in s && '\n' !in k
    ensures ScanLines(ProbeFile(s, k)) == ProbeLines(s, k) && CleanFile(ProbeFile(s, k))
  {
    var header, line := "[" + s + "]", k + "=";
    assert header[|header| - 1] == ']' && line[|line| - 1] == '=';
    ReadBackIffClean(ProbeLines(s, k));
  }

  lemma ProbeReads(s: string, k: string)
    requires Trimmed(k) && '=' !in k
    ensures var lines := ProbeLines(s, k);
            SectionAt(lines, 1) == s && IsAssignment(lines[1]) && KeyOf(lines[1]) == k
  {
    var lines := ProbeLines(s, k);
    var header, line := lines[0], lines[1];
    assert IsHeader(header) && SectionName(header) == s;
    assert SectionAt(lines, 1) == SectionName(lines[0]);
    assert line == k + ['='] + "";
    FindAt(k, '=', "");
    assert line[|k|] == '=' && line[..|k|] == k && !IsHeader(line);
    TrimSpaceFixed(k);
  }

  lemma ProbeBreaks(a: seq<SectionKeyValue>, s: string, k: string)
    requires Matchable(s, k) && NewValue(a, s, k).Some?
    requires !Clean(NewValue(a, s, k).value) || HeaderLike(k, NewValue(a, s, k).value)
    ensures CleanFile(ProbeFile(s, k)) && exists b :: !ComposesOn(a, b, ProbeFile(s, k))
  {
    var lines, v := ProbeLines(s, k), NewValue(a, s, k).value;
    ProbeScans(s, k);
    ProbeReads(s, k);
    RewrittenAt(a, lines, 1);
    var out := Rewritten(a, lines)[1];
    assert out == Assignment(k, v);
    assert out[|out| - 1] == if v == [] then ' ' else v[|v| - 1];
    assert Clean(out) ==> Clean(v);
    assert HeaderLike(k, v) ==> !SafeAt(a, lines, 1);
    FileComposesIff(a, ProbeFile(s, k));
  }

  /** The law holds for all `b` and all clean files exactly when every value of `a` that can be
      written is clean and not header-like. */
  lemma FilesComposeIffSafe(a: seq<SectionKeyValue>)
    ensures (forall b, text :: CleanFile(text) ==> ComposesOn(a, b, text)) <==> FileSafe(a)
  {
    if FileSafe(a) {
      forall b, text | CleanFile(text) ensures ComposesOn(a, b, text) {
        SafeFileReadsBack(a, text);
        FileRewritesCompose(a, b, text);
      }
    } else {
      var s, k :| Matchable(s, k) && NewValue(a, s, k).Some? &&
        !(Clean(NewValue(a, s, k).value) && !HeaderLike(k, NewValue(a, s, k).value));
      ProbeBreaks(a, s, k);
    }
  }

  /** A file rewritten with nothing scans to the same lines as before exactly when none of its
      scanned lines ends in a carriage return. */
  lemma FileRereadIffClean(text: string)
    ensures ScanLines(RewrittenFile([], text)) == ScanLines(text) <==> CleanFile(text)
  {
    ScannedLinesHaveNoFeed(text);
    ReadBackIffClean(ScanLines(text));
    RewrittenWithNothing(ScanLines(text));
  }
}

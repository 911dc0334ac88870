/**
 The compact `glob=format[,glob=format]*` rule string: the daemon's parser, the shape check the
 terminal form runs before saving, and their agreement.
 */
module ModelFormats {
  import opened Json

  // ---- Text ----

  /** The characters with the Unicode White_Space property. */
  predicate IsSpace(c: char) {
    || '\U{0009}' <= c <= '\U{000D}' || c == ' ' || c == '\U{0085}' || c == '\U{00A0}' || c == '\U{1680}'
    || '\U{2000}' <= c <= '\U{200A}' || c == '\U{2028}' || c == '\U{2029}' || c == '\U{202F}'
    || c == '\U{205F}' || c == '\U{3000}'
  }

  function TrimStart(s: string): string {
    if s != [] && IsSpace(s[0]) then TrimStart(s[1..]) else s
  }

  function TrimEnd(s: string): string {
    if s != [] && IsSpace(s[|s| - 1]) then TrimEnd(s[..|s| - 1]) else s
  }

  function Trim(s: string): string {
    TrimEnd(TrimStart(s))
  }

  /** The pieces between separators; one more piece than separators. */
  function Split(s: string, sep: char): (pieces: seq<string>)
    ensures pieces != []
  {
    if s == [] then [[]]
    else
      var pieces := Split(s[1..], sep);
      if s[0] == sep then [[]] + pieces else [[s[0]] + pieces[0]] + pieces[1..]
  }

  function SplitOnce(s: string, sep: char): Option<(string, string)> {
    if s == [] then None
    else if s[0] == sep then Some(([], s[1..]))
    else match SplitOnce(s[1..], sep)
         case None => None
         case Some((left, right)) => Some(([s[0]] + left, right))
  }

  function LowerChar(c: char): char {
    if 'A' <= c <= 'Z' then c + 32 as char else c
  }

  function Lower(s: string): string {
    seq(|s|, i requires 0 <= i < |s| => LowerChar(s[i]))
  }

  // ---- Entries ----

  datatype WireFormat = Anthropic | OpenAi | Responses

  type FormatRule = (string, WireFormat)

  function FormatNamed(s: string): Option<WireFormat> {
    if s == "anthropic" then Some(Anthropic)
    else if s == "openai" then Some(OpenAi)
    else if s == "responses" then Some(Responses)
    else None
  }

  /** Trimmed segments, blank ones skipped. */
  function NonBlank(pieces: seq<string>): seq<string> {
    if pieces == [] then []
    else (if Trim(pieces[0]) == [] then [] else [Trim(pieces[0])]) + NonBlank(pieces[1..])
  }

  function Segments(s: string): seq<string> {
    NonBlank(Split(s, ','))
  }

  /** The rule a segment spells, when it has the right shape. */
  function RuleOf(segment: string): Option<FormatRule> {
    match SplitOnce(segment, '=')
    case None => None
    case Some((left, right)) =>
      var glob, format := Trim(left), FormatNamed(Lower(Trim(right)));
      if glob == [] || format.None? then None else Some((glob, format.value))
  }

  datatype FormatError = BadEntry(segment: string) | BadGlob(glob: string)

  datatype Parsed = Ok(rules: seq<FormatRule>) | Err(error: FormatError)

  // ---- The daemon's parser ----

  datatype Entry = Rule(rule: FormatRule) | Bad(error: FormatError)

  /** One non-blank segment; `compiles` stands for the glob compiler. */
  method ParseEntry(segment: string, compiles: string -> bool) returns (r: Entry)
    ensures match RuleOf(segment)
            case None => r == Bad(BadEntry(segment))
            case Some(rule) => r == if compiles(rule.0) then Rule(rule) else Bad(BadGlob(rule.0))
  {
    var parts := SplitOnce(segment, '=');
    if parts.None? {
      return Bad(BadEntry(segment));
    }
    var glob := Trim(parts.value.0);
    if glob == [] {
      return Bad(BadEntry(segment));
    }
    var format := FormatNamed(Lower(Trim(parts.value.1)));
    if format.None? {
      return Bad(BadEntry(segment));
    }
    if !compiles(glob) {
      return Bad(BadGlob(glob));
    }
    return Rule((glob, format.value));
  }

  ghost predicate GoodSegment(segment: string, compiles: string -> bool) {
    RuleOf(segment).Some? && compiles(RuleOf(segment).value.0)
  }

  method ParseModelFormats(s: string, compiles: string -> bool) returns (r: Parsed)
    ensures r.Ok? <==> forall i | 0 <= i < |Segments(s)| :: GoodSegment(Segments(s)[i], compiles)
    ensures r.Ok? ==> |r.rules| == |Segments(s)|
                      && forall i | 0 <= i < |r.rules| :: Some(r.rules[i]) == RuleOf(Segments(s)[i])
    ensures r.Err? ==> exists i | 0 <= i < |Segments(s)| :: FirstBadSegment(Segments(s), i, compiles, r.error)
  {
    var pieces := Split(s, ',');
    var out: seq<FormatRule> := [];
    ghost var segments := Segments(s);
    assert pieces[0..] == pieces;
    for k := 0 to |pieces|
      invariant ParsedSoFar(segments, out, compiles)
      invariant segments[|out|..] == NonBlank(pieces[k..])
    {
      var segment := Trim(pieces[k]);
      NextSegment(segments, |out|, pieces, k);
      if segment == [] {
        continue;
      }
      var entry := ParseEntry(segment, compiles);
      if entry.Bad? {
        assert FirstBadSegment(segments, |out|, compiles, entry.error);
        return Err(entry.error);
      }
      ParsedOneMore(segments, out, entry.rule, compiles);
      out := out + [entry.rule];
    }
    assert |out| == |segments|;
    return Ok(out);
  }

  /** A piece is blank, or it is the next segment. */
  lemma NextSegment(segments: seq<string>, n: nat, pieces: seq<string>, k: nat)
    requires n <= |segments| && k < |pieces| && segments[n..] == NonBlank(pieces[k..])
    ensures if Trim(pieces[k]) == [] then segments[n..] == NonBlank(pieces[k + 1..])
            else n < |segments| && segments[n] == Trim(pieces[k]) && segments[n + 1..] == NonBlank(pieces[k + 1..])
  {
    var segment, later := Trim(pieces[k]), NonBlank(pieces[k + 1..]);
    assert pieces[k..][1..] == pieces[k + 1..];
    assert segments[n..] == (if segment == [] then [] else [segment]) + later;
    if segment != [] {
      assert segments[n..][0] == segment && segments[n..][1..] == later;
    }
  }

  lemma ParsedOneMore(segments: seq<string>, out: seq<FormatRule>, rule: FormatRule, compiles: string -> bool)
    requires |out| < |segments| && ParsedSoFar(segments, out, compiles)
    requires GoodSegment(segments[|out|], compiles) && RuleOf(segments[|out|]) == Some(rule)
    ensures ParsedSoFar(segments, out + [rule], compiles)
  {
  }

  ghost predicate ParsedSoFar(segments: seq<string>, out: seq<FormatRule>, compiles: string -> bool) {
    && |out| <= |segments|
    && forall i | 0 <= i < |out| :: GoodSegment(segments[i], compiles) && RuleOf(segments[i]) == Some(out[i])
  }

  /** Segment `i` is the first that fails, and `e` says how. */
  ghost predicate FirstBadSegment(segments: seq<string>, i: nat, compiles: string -> bool, e: FormatError) {
    && i < |segments|
    && (forall j | 0 <= j < i :: GoodSegment(segments[j], compiles))
    && match RuleOf(segments[i])
       case None => e == BadEntry(segments[i])
       case Some((glob, _)) => !compiles(glob) && e == BadGlob(glob)
  }

  lemma {:induction false} NonBlankDistributes(a: seq<string>, b: seq<string>)
    ensures NonBlank(a + b) == NonBlank(a) + NonBlank(b)
  {
    if a == [] {
      assert a + b == b;
    } else {
      assert (a + b)[1..] == a[1..] + b;
      NonBlankDistributes(a[1..], b);
    }
  }

  // ---- The form's shape check ----

  /** The first segment the form complains about. */
  function CheckSegments(segments: seq<string>): Option<string> {
    if segments == [] then None
    else match SplitOnce(segments[0], '=')
         case None => Some(segments[0])
         case Some((glob, format)) =>
           if Trim(glob) == [] || Lower(Trim(format)) !in {"anthropic", "openai", "responses"} then Some(segments[0])
           else CheckSegments(segments[1..])
  }

  function CheckModelFormats(s: string): Option<string> {
    CheckSegments(Segments(s))
  }

  lemma {:induction false} CheckFindsShapeErrors(segments: seq<string>)
    ensures CheckSegments(segments).None? <==> forall i | 0 <= i < |segments| :: RuleOf(segments[i]).Some?
  {
    if segments == [] {
    } else {
      CheckFindsShapeErrors(segments[1..]);
      assert forall i | 0 < i < |segments| :: segments[i] == segments[1..][i - 1];
    }
  }

  /** What passes the form's check fails in the daemon only over a glob that does not compile. */
  lemma FormAndDaemonAgree(s: string, compiles: string -> bool)
    ensures var segments := Segments(s);
            (forall i | 0 <= i < |segments| :: GoodSegment(segments[i], compiles))
            <==> CheckModelFormats(s).None?
                 && forall i | 0 <= i < |segments| && RuleOf(segments[i]).Some? :: compiles(RuleOf(segments[i]).value.0)
  {
    CheckFindsShapeErrors(Segments(s));
  }

  // ---- The form saves the trimmed string ----

  lemma {:induction false} TrimIgnoresTrailing(s: string, c: char)
    requires IsSpace(c)
    ensures Trim(s + [c]) == Trim(s)
  {
    if s != [] && IsSpace(s[0]) {
      assert (s + [c])[1..] == s[1..] + [c];
      TrimIgnoresTrailing(s[1..], c);
    } else if s != [] {
      assert (s + [c])[..|s|] == s;
    } else {
      assert (s + [c])[1..] == [];
    }
  }

  lemma SegmentsIgnoreLeadingSpace(s: string)
    requires s != [] && IsSpace(s[0])
    ensures Segments(s) == Segments(s[1..])
  {
    var pieces := Split(s[1..], ',');
    assert Trim([s[0]] + pieces[0]) == Trim(pieces[0]) by {
      assert ([s[0]] + pieces[0])[1..] == pieces[0];
    }
    assert Split(s, ',') == [[s[0]] + pieces[0]] + pieces[1..];
    assert ([[s[0]] + pieces[0]] + pieces[1..])[1..] == pieces[1..];
  }

  lemma {:induction false} SplitTrailing(s: string, c: char)
    requires c != ','
    ensures var pieces := Split(s, ',');
            Split(s + [c], ',') == pieces[..|pieces| - 1] + [pieces[|pieces| - 1] + [c]]
  {
    if s == [] {
      var empty: string := [];
      assert (s + [c])[1..] == empty && Split(s, ',')[0] == empty;
      assert [c] + empty == empty + [c];
    } else {
      assert (s + [c])[1..] == s[1..] + [c];
      SplitTrailing(s[1..], c);
      var tail, pieces := Split(s[1..], ','), Split(s, ',');
      var init, last := tail[..|tail| - 1], tail[|tail| - 1];
      if s[0] == ',' {
        assert pieces[..|pieces| - 1] == [[]] + init;
      } else if init == [] {
        assert [s[0]] + (last + [c]) == [s[0]] + last + [c];
      } else {
        assert pieces[..|pieces| - 1] == [[s[0]] + tail[0]] + init[1..];
      }
    }
  }

  lemma SegmentsIgnoreTrailingSpace(s: string)
    requires s != [] && IsSpace(s[|s| - 1])
    ensures Segments(s) == Segments(s[..|s| - 1])
  {
    var front, c := s[..|s| - 1], s[|s| - 1];
    var pieces := Split(front, ',');
    var init, last := pieces[..|pieces| - 1], pieces[|pieces| - 1];
    assert s == front + [c] && pieces == init + [last];
    SplitTrailing(front, c);
    TrimIgnoresTrailing(last, c);
    NonBlankDistributes(init, [last]);
    NonBlankDistributes(init, [last + [c]]);
    assert NonBlank([last + [c]]) == NonBlank([last]);
  }

  lemma {:induction false} SegmentsOfTrimStart(s: string)
    ensures Segments(TrimStart(s)) == Segments(s)
  {
    if s != [] && IsSpace(s[0]) {
      SegmentsIgnoreLeadingSpace(s);
      SegmentsOfTrimStart(s[1..]);
    }
  }

  lemma {:induction false} SegmentsOfTrimEnd(s: string)
    ensures Segments(TrimEnd(s)) == Segments(s)
  {
    if s != [] && IsSpace(s[|s| - 1]) {
      SegmentsIgnoreTrailingSpace(s);
      SegmentsOfTrimEnd(s[..|s| - 1]);
    }
  }

  /** Trimming the whole string, as the form does before saving, changes no segment. */
  lemma TrimmingKeepsSegments(s: string)
    ensures Segments(Trim(s)) == Segments(s)
  {
    SegmentsOfTrimStart(s);
    SegmentsOfTrimEnd(TrimStart(s));
  }

  // ---- What trimming, printing and letter case mean ----

  ghost predicate AllSpace(s: string) {
    forall i | 0 <= i < |s| :: IsSpace(s[i])
  }

  /** One by one, the spaces of Unicode. */
  lemma SpaceCharacters(c: char)
    ensures IsSpace(c) <==> c in {
      '\t', '\n', '\U{000B}', '\U{000C}', '\r', ' ', '\U{0085}', '\U{00A0}', '\U{1680}',
      '\U{2000}', '\U{2001}', '\U{2002}', '\U{2003}', '\U{2004}', '\U{2005}', '\U{2006}', '\U{2007}',
      '\U{2008}', '\U{2009}', '\U{200A}', '\U{2028}', '\U{2029}', '\U{202F}', '\U{205F}', '\U{3000}'}
  {
  }

  /** It has no space at either end. */
  predicate Trimmed(s: string) {
    s == [] || (!IsSpace(s[0]) && !IsSpace(s[|s| - 1]))
  }

  /** Trimming takes exactly the spaces around the text. */
  lemma TrimTakesSpaces(s: string) returns (before: string, after: string)
    ensures s == before + Trim(s) + after && AllSpace(before) && AllSpace(after) && Trimmed(Trim(s))
  {
    before := StartTakesSpaces(s);
    after := EndTakesSpaces(TrimStart(s));
    assert Trim(s) != [] ==> Trim(s)[0] == TrimStart(s)[0];
  }

  lemma {:induction false} StartTakesSpaces(s: string) returns (before: string)
    ensures s == before + TrimStart(s) && AllSpace(before)
    ensures TrimStart(s) == [] || !IsSpace(TrimStart(s)[0])
  {
    before := [];
    if s != [] && IsSpace(s[0]) {
      var more := StartTakesSpaces(s[1..]);
      before := [s[0]] + more;
      assert s == [s[0]] + s[1..];
    }
  }

  lemma {:induction false} EndTakesSpaces(s: string) returns (after: string)
    ensures s == TrimEnd(s) + after && AllSpace(after)
    ensures TrimEnd(s) == [] || !IsSpace(TrimEnd(s)[|TrimEnd(s)| - 1])
  {
    after := [];
    if s != [] && IsSpace(s[|s| - 1]) {
      var more := EndTakesSpaces(s[..|s| - 1]);
      after := more + [s[|s| - 1]];
      assert s == s[..|s| - 1] + [s[|s| - 1]];
    }
  }

  lemma TrimmedStays(s: string)
    requires Trimmed(s)
    ensures Trim(s) == s
  {
  }

  lemma TrimmingTwice(s: string)
    ensures Trim(Trim(s)) == Trim(s)
  {
    var before, after := TrimTakesSpaces(s);
    TrimmedStays(Trim(s));
  }

  function NameOf(format: WireFormat): string {
    match format
    case Anthropic => "anthropic"
    case OpenAi => "openai"
    case Responses => "responses"
  }

  /** A glob that can be written down as it is. */
  predicate PlainGlob(glob: string) {
    glob != [] && Trimmed(glob) && '=' !in glob && ',' !in glob
  }

  function PrintedRule(rule: FormatRule): string {
    rule.0 + "=" + NameOf(rule.1)
  }

  function Printed(rules: seq<FormatRule>): string {
    if rules == [] then ""
    else if |rules| == 1 then PrintedRule(rules[0])
    else PrintedRule(rules[0]) + "," + Printed(rules[1..])
  }

  lemma {:induction false} SplitOnceAt(left: string, sep: char, right: string)
    requires sep !in left
    ensures SplitOnce(left + [sep] + right, sep) == Some((left, right))
  {
    var s := left + [sep] + right;
    if left != [] {
      SplitOnceAt(left[1..], sep, right);
      assert s[1..] == left[1..] + [sep] + right && left == [left[0]] + left[1..];
    }
  }

  lemma {:induction false} SplitAt(left: string, sep: char, right: string)
    requires sep !in left
    ensures Split(left, sep) == [left] && Split(left + [sep] + right, sep) == [left] + Split(right, sep)
  {
    var s := left + [sep] + right;
    if left != [] {
      SplitAt(left[1..], sep, right);
      assert s[1..] == left[1..] + [sep] + right && left == [left[0]] + left[1..];
    }
  }

  /** A printed rule is one segment that spells the rule, its format in capitals or not. */
  lemma PrintedRuleParses(rule: FormatRule, name: string)
    requires PlainGlob(rule.0) && Lower(name) == NameOf(rule.1) && ',' !in name && Trimmed(name)
    ensures RuleOf(rule.0 + "=" + name) == Some(rule)
    ensures var text := rule.0 + "=" + name; ',' !in text && text != [] && Trim(text) == text
  {
    SplitOnceAt(rule.0, '=', name);
    TrimmedStays(rule.0);
    TrimmedStays(name);
    assert |name| == |NameOf(rule.1)| > 0;
    TrimmedStays(rule.0 + "=" + name);
  }

  lemma NamesAreLower(format: WireFormat)
    ensures Lower(NameOf(format)) == NameOf(format) && ',' !in NameOf(format) && Trimmed(NameOf(format))
  {
  }

  ghost predicate Spells(segments: seq<string>, rules: seq<FormatRule>) {
    |segments| == |rules| && forall i | 0 <= i < |rules| :: RuleOf(segments[i]) == Some(rules[i])
  }

  /** Printing rules and parsing them gives them back, in order. */
  lemma {:induction false} PrintedRulesParse(rules: seq<FormatRule>)
    requires forall i | 0 <= i < |rules| :: PlainGlob(rules[i].0)
    ensures Spells(Segments(Printed(rules)), rules)
  {
    if rules != [] {
      NamesAreLower(rules[0].1);
      PrintedRuleParses(rules[0], NameOf(rules[0].1));
      PrintedRulesParse(rules[1..]);
      PrintedFirst(rules, PrintedRule(rules[0]));
    }
  }

  lemma PrintedFirst(rules: seq<FormatRule>, first: string)
    requires rules != [] && first == PrintedRule(rules[0])
    requires ',' !in first && first != [] && Trim(first) == first
    ensures Segments(Printed(rules)) == [first] + Segments(Printed(rules[1..]))
  {
    SplitAt(first, ',', Printed(rules[1..]));
    if |rules| == 1 {
      assert Split(Printed(rules), ',') == [first];
      assert NonBlank([first]) == [first] + NonBlank([]);
    } else {
      var later := Split(Printed(rules[1..]), ',');
      assert ([first] + later)[1..] == later;
    }
  }

  /** Names in capitals are the same names. */
  lemma CapitalsDoNotMatter()
    ensures Lower("OpenAI") == "openai" && Lower("ANTHROPIC") == "anthropic" && Lower("Responses") == "responses"
  {
  }
}

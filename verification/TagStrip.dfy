/** Removing tagged spans from a string: the scanning loop and the document structure it recovers. */
module TagStrip {
  import opened Json

  predicate TagAt(s: string, i: nat, tag: string) {
    i + |tag| <= |s| && s[i..i + |tag|] == tag
  }

  ghost predicate Without(s: string, tag: string) {
    forall i: nat :: !TagAt(s, i, tag)
  }

  ghost predicate FirstAt(s: string, i: nat, tag: string) {
    TagAt(s, i, tag) && forall j: nat | j < i :: !TagAt(s, j, tag)
  }

  /** Where `tag` first occurs. */
  function Find(s: string, tag: string): (r: Option<nat>)
    requires tag != []
    ensures if r.Some? then FirstAt(s, r.value, tag) else Without(s, tag)
  {
    FindFrom(s, tag, 0)
  }

  function FindFrom(s: string, tag: string, from: nat): (r: Option<nat>)
    requires tag != []
    requires forall j: nat | j < from :: !TagAt(s, j, tag)
    ensures if r.Some? then FirstAt(s, r.value, tag) else Without(s, tag)
    decreases |s| - from
  {
    if from + |tag| > |s| then None
    else if TagAt(s, from, tag) then Some(from)
    else FindFrom(s, tag, from + 1)
  }

  lemma FindIs(s: string, tag: string, i: nat)
    requires tag != [] && FirstAt(s, i, tag)
    ensures Find(s, tag) == Some(i)
  {
  }

  lemma TagInPrefix(s: string, t: string, i: nat, tag: string)
    requires i + |tag| <= |s|
    ensures TagAt(s + t, i, tag) <==> TagAt(s, i, tag)
  {
    assert (s + t)[i..i + |tag|] == s[i..i + |tag|];
  }

  lemma TagInSuffix(s: string, k: nat, i: nat, tag: string)
    requires k <= |s|
    ensures TagAt(s[k..], i, tag) <==> TagAt(s, k + i, tag)
  {
    if k + i + |tag| <= |s| {
      assert s[k..][i..i + |tag|] == s[k + i..k + i + |tag|];
    }
  }

  // ---- The structure of tagged text ----

  /** Text, cut into kept stretches and hidden spans; the last span may lack its end tag. */
  datatype Doc =
    | Text(kept: string)
    | Span(kept: string, hidden: string, rest: Doc)
    | OpenSpan(kept: string, hidden: string)

  datatype Tags = Tags(start: string, end: string) {
    predicate Usable() {
      start != [] && end != []
    }
  }

  /** Keep up to the first start tag, hide up to the first end tag after it, and go on. */
  function Parse(s: string, tags: Tags): Doc
    requires tags.Usable()
    decreases |s|
  {
    match Find(s, tags.start)
    case None => Text(s)
    case Some(i) =>
      var inner := s[i + |tags.start|..];
      match Find(inner, tags.end)
      case None => OpenSpan(s[..i], inner)
      case Some(j) => Span(s[..i], inner[..j], Parse(inner[j + |tags.end|..], tags))
  }

  function Kept(d: Doc): string {
    match d
    case Text(kept) => kept
    case Span(kept, _, rest) => kept + Kept(rest)
    case OpenSpan(kept, _) => kept
  }

  ghost function Unparse(d: Doc, tags: Tags): string {
    match d
    case Text(kept) => kept
    case Span(kept, hidden, rest) => kept + tags.start + hidden + tags.end + Unparse(rest, tags)
    case OpenSpan(kept, hidden) => kept + tags.start + hidden
  }

  /** `tag` appended to `s` is its first occurrence. */
  ghost predicate EndsAtFirst(s: string, tag: string)
    requires tag != []
  {
    Find(s + tag, tag) == Some(|s|)
  }

  ghost predicate WellFormed(d: Doc, tags: Tags)
    requires tags.Usable()
  {
    match d
    case Text(kept) => Without(kept, tags.start)
    case Span(kept, hidden, rest) =>
      EndsAtFirst(kept, tags.start) && EndsAtFirst(hidden, tags.end) && WellFormed(rest, tags)
    case OpenSpan(kept, hidden) => EndsAtFirst(kept, tags.start) && Without(hidden, tags.end)
  }

  lemma FirstTagSplits(s: string, tag: string, i: nat)
    requires tag != [] && FirstAt(s, i, tag)
    ensures s == s[..i] + tag + s[i + |tag|..]
    ensures EndsAtFirst(s[..i], tag)
  {
    assert s == s[..i] + s[i..i + |tag|] + s[i + |tag|..];
    FirstTagOfPrefix(s[..i], tag, s[i + |tag|..]);
  }

  /** Whether a tag comes first after `s` does not depend on what follows it. */
  lemma FirstTagOfPrefix(s: string, tag: string, tail: string)
    requires tag != []
    ensures FirstAt(s + tag + tail, |s|, tag) <==> EndsAtFirst(s, tag)
  {
    forall j: nat | j <= |s| ensures TagAt(s + tag + tail, j, tag) <==> TagAt(s + tag, j, tag) {
      TagInPrefix(s + tag, tail, j, tag);
    }
    if FirstAt(s + tag + tail, |s|, tag) {
      FindIs(s + tag, tag, |s|);
    }
  }

  lemma TagAfterCleanText(s: string, tag: string, tail: string)
    requires tag != [] && EndsAtFirst(s, tag)
    ensures Find(s + tag + tail, tag) == Some(|s|)
  {
    FirstTagOfPrefix(s, tag, tail);
    FindIs(s + tag + tail, tag, |s|);
  }

  lemma Around(before: string, tag: string, after: string)
    ensures var s := before + tag + after;
            s[..|before|] == before && s[|before| + |tag|..] == after
  {
  }

  /** One step of the parse, spelled out. */
  lemma ParseSpan(kept: string, hidden: string, tail: string, tags: Tags)
    requires tags.Usable() && EndsAtFirst(kept, tags.start) && EndsAtFirst(hidden, tags.end)
    ensures Parse(kept + tags.start + hidden + tags.end + tail, tags) == Span(kept, hidden, Parse(tail, tags))
  {
    var inner := hidden + tags.end + tail;
    var s := kept + tags.start + inner;
    assert kept + tags.start + hidden + tags.end + tail == s;
    TagAfterCleanText(kept, tags.start, inner);
    Around(kept, tags.start, inner);
    ParseFrom(s, |kept|, inner, tags);
    BehindSpan(kept, hidden, tail, tags);
  }

  lemma BehindSpan(kept: string, hidden: string, tail: string, tags: Tags)
    requires tags.Usable() && EndsAtFirst(hidden, tags.end)
    ensures Behind(kept, hidden + tags.end + tail, tags) == Span(kept, hidden, Parse(tail, tags))
  {
    TagAfterCleanText(hidden, tags.end, tail);
    Around(hidden, tags.end, tail);
  }

  /** Parsing loses nothing: the text is its kept stretches, tags and hidden spans in order. */
  lemma {:induction false} ParseIsFaithful(s: string, tags: Tags)
    requires tags.Usable()
    ensures Unparse(Parse(s, tags), tags) == s && WellFormed(Parse(s, tags), tags)
    decreases |s|
  {
    var i := Find(s, tags.start);
    if i.Some? {
      FirstTagSplits(s, tags.start, i.value);
      var inner := s[i.value + |tags.start|..];
      var j := Find(inner, tags.end);
      if j.Some? {
        FirstTagSplits(inner, tags.end, j.value);
        ParseIsFaithful(inner[j.value + |tags.end|..], tags);
        UnparseSpan(s[..i.value], inner[..j.value], inner[j.value + |tags.end|..], tags);
      }
    }
  }

  lemma UnparseSpan(kept: string, hidden: string, tail: string, tags: Tags)
    ensures kept + tags.start + (hidden + tags.end + tail) == kept + tags.start + hidden + tags.end + tail
  {
  }

  /** And it is the only well-formed reading of the text. */
  lemma {:induction false} ParseIsUnique(d: Doc, tags: Tags)
    requires tags.Usable() && WellFormed(d, tags)
    ensures Parse(Unparse(d, tags), tags) == d
    decreases d
  {
    match d {
      case Text(kept) =>
      case Span(kept, hidden, rest) =>
        ParseSpan(kept, hidden, Unparse(rest, tags), tags);
        ParseIsUnique(rest, tags);
      case OpenSpan(kept, hidden) =>
        var s := kept + tags.start + hidden;
        TagAfterCleanText(kept, tags.start, hidden);
        assert s[..|kept|] == kept && s[|kept| + |tags.start|..] == hidden;
    }
  }

  /** Stripping leaves a text alone exactly when it has no start tag; otherwise it gets shorter. */
  lemma StripIsIdentityIffUntagged(s: string, tags: Tags)
    requires tags.Usable()
    ensures Kept(Parse(s, tags)) == s <==> Without(s, tags.start)
  {
    ParseIsFaithful(s, tags);
    KeptIsShorter(Parse(s, tags), tags);
  }

  lemma {:induction false} KeptIsShorter(d: Doc, tags: Tags)
    requires tags.Usable()
    ensures if d.Text? then Kept(d) == Unparse(d, tags) else |Kept(d)| < |Unparse(d, tags)|
  {
    if d.Span? {
      KeptIsShorter(d.rest, tags);
    }
  }

  // ---- The scanner ----

  function ThinkingTags(): Tags {
    Tags("\U{601D}\U{7EEA}", "\U{534A}\U{6570}")
  }

  /** A character that does not begin a tag only shifts where the tag is found. */
  lemma FindBehindFirst(s: string, tag: string)
    requires tag != [] && s != [] && !TagAt(s, 0, tag)
    ensures match Find(s, tag)
            case None => Find(s[1..], tag).None?
            case Some(i) => i > 0 && Find(s[1..], tag) == Some(i - 1)
  {
    forall j: nat ensures TagAt(s[1..], j, tag) <==> TagAt(s, j + 1, tag) {
      TagInSuffix(s, 1, j, tag);
    }
    match Find(s, tag) {
      case None =>
      case Some(i) =>
        assert i > 0 && TagAt(s, i - 1 + 1, tag);
        FindIs(s[1..], tag, i - 1);
    }
  }

  /** What is kept of the text behind a start tag. */
  function KeptAfter(inner: string, tags: Tags): string
    requires tags.Usable()
  {
    match Find(inner, tags.end)
    case None => []
    case Some(j) => Kept(Parse(inner[j + |tags.end|..], tags))
  }

  lemma KeptFrom(s: string, i: nat, inner: string, tags: Tags)
    requires tags.Usable() && Find(s, tags.start) == Some(i) && inner == s[i + |tags.start|..]
    ensures Kept(Parse(s, tags)) == s[..i] + KeptAfter(inner, tags)
  {
    ParseFrom(s, i, inner, tags);
    KeptBehind(s[..i], inner, tags);
  }

  /** The parse of a text whose first start tag is known. */
  function Behind(before: string, inner: string, tags: Tags): Doc
    requires tags.Usable()
  {
    match Find(inner, tags.end)
    case None => OpenSpan(before, inner)
    case Some(j) => Span(before, inner[..j], Parse(inner[j + |tags.end|..], tags))
  }

  lemma ParseFrom(s: string, i: nat, inner: string, tags: Tags)
    requires tags.Usable() && Find(s, tags.start) == Some(i) && inner == s[i + |tags.start|..]
    ensures Parse(s, tags) == Behind(s[..i], inner, tags)
  {
  }

  lemma KeptBehind(before: string, inner: string, tags: Tags)
    requires tags.Usable()
    ensures Kept(Behind(before, inner, tags)) == before + KeptAfter(inner, tags)
  {
  }

  /** It is kept, and scanning goes on behind it. */
  lemma KeepOne(s: string, tags: Tags)
    requires tags.Usable() && s != [] && !TagAt(s, 0, tags.start)
    ensures Kept(Parse(s, tags)) == [s[0]] + Kept(Parse(s[1..], tags))
  {
    FindBehindFirst(s, tags.start);
    var i := Find(s, tags.start);
    if i.Some? {
      KeepOneBefore(s, s[1..], i.value, tags);
    } else {
      assert s == [s[0]] + s[1..];
    }
  }

  lemma KeepOneBefore(s: string, t: string, i: nat, tags: Tags)
    requires tags.Usable() && s != [] && t == s[1..] && i > 0
    requires Find(s, tags.start) == Some(i) && Find(t, tags.start) == Some(i - 1)
    ensures Kept(Parse(s, tags)) == [s[0]] + Kept(Parse(t, tags))
  {
    var inner := s[i + |tags.start|..];
    assert t[i - 1 + |tags.start|..] == inner;
    KeptFrom(s, i, inner, tags);
    KeptFrom(t, i - 1, inner, tags);
    PrefixByOne(s, i, KeptAfter(inner, tags));
  }

  lemma PrefixByOne(s: string, i: nat, later: string)
    requires 0 < i <= |s|
    ensures s[..i] + later == [s[0]] + (s[1..][..i - 1] + later)
  {
  }

  method StartsWithChars(chars: string, prefix: string) returns (yes: bool)
    ensures yes == TagAt(chars, 0, prefix)
  {
    var count := 0;
    while count < |chars| && count < |prefix|
      invariant count <= |chars| && count <= |prefix|
      invariant chars[..count] == prefix[..count]
    {
      if chars[count] != prefix[count] {
        return false;
      }
      count := count + 1;
    }
    return count == |prefix|;
  }

  /** Consume characters through the first end tag, holding only a window of its length. */
  method SkipUntilEndTag(chars: string, tagEnd: string) returns (consumed: nat, rest: string)
    requires tagEnd != []
    ensures match Find(chars, tagEnd)
            case None => consumed == 0 && rest == []
            case Some(j) => consumed == |tagEnd| && rest == chars[j + |tagEnd|..]
  {
    rest := chars;
    var window: string := [];
    ghost var k := 0;
    while rest != []
      invariant k <= |chars| && rest == chars[k..]
      invariant window == Window(chars, |tagEnd|, k)
      invariant NoneWithin(chars, tagEnd, k)
      decreases |rest|
    {
      WindowSlides(chars, |tagEnd|, k);
      ScannedOneMore(chars, tagEnd, k);
      window := window + [rest[0]];
      rest := rest[1..];
      k := k + 1;
      if |window| > |tagEnd| {
        window := window[1..];
      }
      if |window| == |tagEnd| && window == tagEnd {
        return |tagEnd|, rest;
      }
    }
    assert Without(chars, tagEnd);
    return 0, rest;
  }

  /** No tag ends within the first `k` characters. */
  ghost predicate NoneWithin(chars: string, tag: string, k: nat) {
    forall j: nat | j + |tag| <= k :: !TagAt(chars, j, tag)
  }

  lemma ScannedOneMore(chars: string, tag: string, k: nat)
    requires tag != [] && k < |chars| && NoneWithin(chars, tag, k)
    ensures if Window(chars, |tag|, k + 1) == tag
            then |tag| <= k + 1 && Find(chars, tag) == Some(k + 1 - |tag|) else NoneWithin(chars, tag, k + 1)
  {
    if Window(chars, |tag|, k + 1) == tag {
      FindIs(chars, tag, k + 1 - |tag|);
    }
  }

  /** The last `n` of the first `k` characters, or all of them. */
  function Window(chars: string, n: nat, k: nat): string
    requires k <= |chars|
  {
    chars[if k < n then 0 else k - n..k]
  }

  lemma WindowSlides(chars: string, n: nat, k: nat)
    requires k < |chars|
    ensures var longer := Window(chars, n, k) + [chars[k]];
            Window(chars, n, k + 1) == if |longer| > n then longer[1..] else longer
  {
  }

  lemma NothingLeftToKeep(tags: Tags)
    requires tags.Usable()
    ensures Kept(Parse([], tags)) == []
  {
  }

  lemma RestAfterSkip(inner: string, rest: string, tags: Tags)
    requires tags.Usable()
    requires rest == match Find(inner, tags.end) case None => [] case Some(j) => inner[j + |tags.end|..]
    ensures Kept(Parse(rest, tags)) == KeptAfter(inner, tags)
  {
    NothingLeftToKeep(tags);
  }

  lemma SkipStep(chars: string, tags: Tags)
    requires tags.Usable() && Find(chars, tags.start) == Some(0)
    ensures Kept(Parse(chars, tags)) == KeptAfter(chars[|tags.start|..], tags)
  {
    KeptFrom(chars, 0, chars[|tags.start|..], tags);
  }

  method StripThinkingTags(content: string) returns (result: string)
    ensures result == Kept(Parse(content, ThinkingTags()))
  {
    var tags := ThinkingTags();
    var chars := content;
    result := "";
    while chars != []
      invariant result + Kept(Parse(chars, tags)) == Kept(Parse(content, tags))
      decreases |chars|
    {
      var atTag := StartsWithChars(chars, tags.start);
      if atTag {
        var consumed, rest := SkipUntilEndTag(chars[|tags.start|..], tags.end);
        RestAfterSkip(chars[|tags.start|..], rest, tags);
        FindIs(chars, tags.start, 0);
        SkipStep(chars, tags);
        chars := rest;
        continue;
      }
      KeepOne(chars, tags);
      result := result + [chars[0]];
      chars := chars[1..];
    }
    NothingLeftToKeep(tags);
  }

  // ---- Stripping twice ----

  /** The first character the text keeps. */
  function FirstKept(d: Doc): Option<char> {
    match d
    case Text(kept) => FirstOf(kept)
    case Span(kept, _, rest) => if kept == [] then FirstKept(rest) else FirstOf(kept)
    case OpenSpan(kept, _) => FirstOf(kept)
  }

  function FirstOf(s: string): Option<char> {
    if s == [] then None else Some(s[0])
  }

  /** Around some hidden span the kept text ends in the first character of a start tag and goes on with the second. */
  predicate Splices(d: Doc, tags: Tags)
    requires |tags.start| == 2
  {
    match d
    case Text(_) => false
    case Span(kept, _, rest) =>
      (kept != [] && kept[|kept| - 1] == tags.start[0] && FirstKept(rest) == Some(tags.start[1]))
      || Splices(rest, tags)
    case OpenSpan(_, _) => false
  }

  lemma {:induction false} FirstKeptIsFirst(d: Doc)
    ensures FirstKept(d) == FirstOf(Kept(d))
  {
    if d.Span? {
      FirstKeptIsFirst(d.rest);
    }
  }

  /** A two-character tag lies in a joined text in either part, or across the seam. */
  lemma TagAcrossSeam(a: string, b: string, tag: string)
    requires |tag| == 2
    ensures Without(a + b, tag)
            <==> Without(a, tag) && Without(b, tag) && !(a != [] && a[|a| - 1] == tag[0] && FirstOf(b) == Some(tag[1]))
  {
    var s := a + b;
    forall j: nat ensures TagAt(b, j, tag) <==> TagAt(s, |a| + j, tag) {
      assert s[|a|..] == b;
      TagInSuffix(s, |a|, j, tag);
    }
    forall j: nat | j + 2 <= |a| ensures TagAt(s, j, tag) <==> TagAt(a, j, tag) {
      TagInPrefix(a, b, j, tag);
    }
    if a != [] && b != [] {
      var k := |a| - 1;
      assert s[k..k + 2] == [a[k], b[0]];
      assert TagAt(s, k, tag) <==> a[k] == tag[0] && b[0] == tag[1];
    }
    if !Without(s, tag) {
      var j: nat :| TagAt(s, j, tag);
      assert j >= |a| ==> TagAt(b, j - |a|, tag);
    }
  }

  lemma KeptBeforeTag(kept: string, tag: string)
    requires tag != [] && EndsAtFirst(kept, tag)
    ensures Without(kept, tag)
  {
    forall j: nat | j + |tag| <= |kept| ensures !TagAt(kept, j, tag) {
      TagInPrefix(kept, tag, j, tag);
    }
  }

  lemma {:induction false} KeptUntaggedIff(d: Doc, tags: Tags)
    requires tags.Usable() && |tags.start| == 2 && WellFormed(d, tags)
    ensures Without(Kept(d), tags.start) <==> !Splices(d, tags)
  {
    match d {
      case Text(_) =>
      case Span(kept, _, rest) =>
        KeptBeforeTag(kept, tags.start);
        KeptUntaggedIff(rest, tags);
        FirstKeptIsFirst(rest);
        TagAcrossSeam(kept, Kept(rest), tags.start);
      case OpenSpan(kept, _) =>
        KeptBeforeTag(kept, tags.start);
    }
  }

  function Stripped(s: string): string {
    Kept(Parse(s, ThinkingTags()))
  }

  /** Stripping a second time changes nothing exactly when taking out no span splices a new start tag together. */
  lemma StrippingTwiceIff(s: string)
    ensures Stripped(Stripped(s)) == Stripped(s) <==> !Splices(Parse(s, ThinkingTags()), ThinkingTags())
  {
    var tags := ThinkingTags();
    ParseIsFaithful(s, tags);
    KeptUntaggedIff(Parse(s, tags), tags);
    StripIsIdentityIffUntagged(Stripped(s), tags);
  }

  /** A first half of a start tag, a whole hidden span, and the other half. */
  const SPLICING_TEXT: string := "\U{601D}\U{601D}\U{7EEA}\U{534A}\U{6570}\U{7EEA}"

  lemma StrippingMayExposeATag()
    ensures Stripped(SPLICING_TEXT) == ThinkingTags().start
    ensures Stripped(Stripped(SPLICING_TEXT)) != Stripped(SPLICING_TEXT)
  {
    var tags := ThinkingTags();
    var d := Span(tags.start[..1], [], Text(tags.start[1..]));
    SplicingTextParses(d);
    assert FirstKept(d.rest) == Some(tags.start[1]);
    StrippingTwiceIff(SPLICING_TEXT);
  }

  lemma SplicingTextParses(d: Doc)
    requires d == Span(ThinkingTags().start[..1], [], Text(ThinkingTags().start[1..]))
    ensures Parse(SPLICING_TEXT, ThinkingTags()) == d
  {
    var tags := ThinkingTags();
    var opening := tags.start[..1] + tags.start;
    assert opening[1..3] == tags.start && opening[0..2][1] != tags.start[1];
    FindIs(opening, tags.start, 1);
    assert [] + tags.end == tags.end && tags.end[0..2] == tags.end;
    FindIs(tags.end, tags.end, 0);
    assert SPLICING_TEXT == Unparse(d, tags);
    ParseIsUnique(d, tags);
  }
}

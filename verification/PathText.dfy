/**
 The text form of a path: the parser of src/aml_base.c:209-383 and the printer of
 src/aml_debug.c:87-111.  A text path is a prefix and segments of one to four characters
 separated by dots; shorter segments are padded with underscores.
 */
module PathText {

  datatype Option<T> = None | Some(value: T)

  datatype Name = Name(prefix: string, segments: seq<string>)

  const SEGMENT_SIZE: nat := 4
  const PREFIX_CAPACITY: nat := 17

  predicate IsDigit(c: char) {
    '0' <= c <= '9'
  }

  predicate IsLead(c: char) {
    'A' <= c <= 'Z' || c == '_'
  }

  predicate IsNameChar(c: char) {
    IsDigit(c) || IsLead(c)
  }

  // ------------------------------------------------------ what a path means

  /** Up to 17 parent characters, then possibly a root character. */
  function CaretsFrom(path: string, i: nat): (e: nat)
    requires i <= |path|
    ensures i <= e <= |path|
    decreases |path| - i
  {
    if i < |path| && path[i] == '^' then CaretsFrom(path, i + 1) else i
  }

  function PrefixEnd(path: string): Option<nat> {
    var k := CaretsFrom(path, 0);
    if k > PREFIX_CAPACITY then None
    else if k < |path| && path[k] == '\\' then Some(k + 1)
    else Some(k)
  }

  /** The first dot at or after i, or the end. */
  function SegmentEnd(path: string, i: nat): (e: nat)
    requires i <= |path|
    ensures i <= e <= |path| && (e < |path| ==> path[e] == '.')
    decreases |path| - i
  {
    if i < |path| && path[i] != '.' then SegmentEnd(path, i + 1) else i
  }

  predicate AllNameChars(s: string) {
    forall i :: 0 <= i < |s| ==> IsNameChar(s[i])
  }

  predicate SegmentText(s: string) {
    1 <= |s| <= SEGMENT_SIZE && IsLead(s[0]) && AllNameChars(s)
  }

  function Pad(s: string): (t: string)
    requires |s| <= SEGMENT_SIZE
    ensures |t| == SEGMENT_SIZE
  {
    s + seq(SEGMENT_SIZE - |s|, _ => '_')
  }

  /** One or more segments from i to the end of the path. */
  function SegmentsFrom(path: string, i: nat): Option<seq<string>>
    requires i <= |path|
    decreases |path| - i
  {
    var e := SegmentEnd(path, i);
    if !SegmentText(path[i..e]) then None
    else if e == |path| then Some([Pad(path[i..e])])
    else Prepend([Pad(path[i..e])], SegmentsFrom(path, e + 1))
  }

  function Prepend(first: seq<string>, rest: Option<seq<string>>): Option<seq<string>> {
    if rest.None? then None else Some(first + rest.value)
  }

  /** The name a path spells. */
  function Meaning(path: string): Option<Name> {
    if path == [] then None
    else
      match PrefixEnd(path)
      case None => None
      case Some(e) =>
        if e == |path| then Some(Name(path[..e], []))
        else
          match SegmentsFrom(path, e)
          case None => None
          case Some(segments) => Some(Name(path[..e], segments))
  }

  /** How many segments the parser makes room for. */
  function Capacity(path: string, prefixLength: nat): nat
    requires prefixLength <= |path|
  {
    (|path| - prefixLength + (SEGMENT_SIZE - 1)) / SEGMENT_SIZE
  }

  // --------------------------------------------------------------- printer

  function Join(segments: seq<string>): string {
    if segments == [] then [] else if |segments| == 1 then segments[0] else segments[0] + "." + Join(segments[1..])
  }

  function Printed(n: Name): string {
    n.prefix + Join(n.segments)
  }

  /** AmlDebugPrintNameString. */
  method Print(n: Name) returns (text: string)
    ensures text == Printed(n)
  {
    text := [];
    var i := 0;
    while i < |n.prefix|
      invariant i <= |n.prefix| && text == n.prefix[..i]
    {
      text := text + [n.prefix[i]];
      i := i + 1;
    }
    i := 0;
    while i < |n.segments|
      invariant i <= |n.segments| && text == n.prefix + Join(n.segments[..i])
    {
      if i != 0 {
        text := text + ".";
      }
      text := text + n.segments[i];
      PrintOneMore(n.prefix, n.segments, i);
      i := i + 1;
    }
    assert n.segments[..i] == n.segments;
  }

  lemma {:induction false} JoinOneMore(segments: seq<string>, s: string)
    ensures Join(segments + [s]) == Join(segments) + (if segments == [] then [] else ".") + s
    decreases |segments|
  {
    if |segments| > 0 {
      assert (segments + [s])[1..] == segments[1..] + [s];
      JoinOneMore(segments[1..], s);
    }
  }

  lemma PrintOneMore(prefix: string, segments: seq<string>, i: nat)
    requires i < |segments|
    ensures prefix + Join(segments[..i + 1]) == prefix + Join(segments[..i]) + (if i == 0 then []
            else ".") + segments[i]
  {
    JoinOneMore(segments[..i], segments[i]);
    assert segments[..i] + [segments[i]] == segments[..i + 1];
  }

  // ------------------------------------------------------------ round trip

  predicate Segment(s: string) {
    |s| == SEGMENT_SIZE && IsLead(s[0]) && AllNameChars(s)
  }

  predicate Segments(segments: seq<string>) {
    forall i :: 0 <= i < |segments| ==> Segment(segments[i])
  }

  /** Up to 17 parent characters, then possibly a root character. */
  predicate PrefixOk(prefix: string) {
    PrefixEnd(prefix) == Some(|prefix|)
  }

  lemma {:induction false} EndOfSegment(path: string, i: nat, e: nat)
    requires i <= e <= |path| && (e < |path| ==> path[e] == '.') && forall k :: i <= k < e ==> path[k] != '.'
    ensures SegmentEnd(path, i) == e
    decreases e - i
  {
    if i < e {
      EndOfSegment(path, i + 1, e);
    }
  }

  predicate NoDot(s: string) {
    forall i :: 0 <= i < |s| ==> s[i] != '.'
  }

  /** Texts with no dot in them, as they stand between dots. */
  predicate Undotted(texts: seq<string>) {
    forall i :: 0 <= i < |texts| ==> NoDot(texts[i])
  }

  predicate AllSegmentTexts(texts: seq<string>) {
    forall i :: 0 <= i < |texts| ==> SegmentText(texts[i])
  }

  function Padded(texts: seq<string>): seq<string>
    requires AllSegmentTexts(texts)
  {
    seq(|texts|, i requires 0 <= i < |texts| => Pad(texts[i]))
  }

  /** The segments the texts spell; none if one of them spells none. */
  function Spelled(texts: seq<string>): Option<seq<string>> {
    if AllSegmentTexts(texts) then Some(Padded(texts)) else None
  }

  lemma FirstSegment(path: string, i: nat, first: string)
    requires NoDot(first) && i + |first| <= |path| && path[i..i + |first|] == first
    requires var e := i + |first|;
             e < |path| ==> path[e] == '.'
    ensures var e := i + |first|;
            SegmentsFrom(path, i) ==
            if !SegmentText(first) then None
            else if e == |path| then Some([Pad(first)])
            else Prepend([Pad(first)], SegmentsFrom(path, e + 1))
  {
    var e := i + |first|;
    assert forall k :: i <= k < e ==> path[k] == first[k - i];
    EndOfSegment(path, i, e);
  }

  lemma Regroup(a: string, b: string, c: string)
    ensures a + (b + "." + c) == (a + b + ".") + c
    ensures |a| + |b| < |a + (b + "." + c)| && (a + (b + "." + c))[|a| + |b|] == '.'
    ensures (a + (b + "." + c))[|a|..|a| + |b|] == b
  {
  }

  /** Dotted texts are read as the segments they spell. */
  lemma {:induction false} SegmentsReadBack(pre: string, texts: seq<string>)
    requires texts != [] && Undotted(texts)
    ensures SegmentsFrom(pre + Join(texts), |pre|) == Spelled(texts)
    decreases |texts|
  {
    assert NoDot(texts[0]);
    if |texts| == 1 {
      FirstSegment(pre + Join(texts), |pre|, texts[0]);
      SpelledOne(texts);
    } else {
      SegmentsReadBack(pre + texts[0] + ".", texts[1..]);
      ReadOneMore(pre, texts[0], texts[1..]);
      SpelledMore(texts);
    }
  }

  lemma SpelledOne(texts: seq<string>)
    requires |texts| == 1
    ensures Spelled(texts) == if SegmentText(texts[0]) then Some([Pad(texts[0])]) else None
  {
    if AllSegmentTexts(texts) {
      assert Padded(texts) == [Pad(texts[0])];
    }
  }

  lemma SpelledMore(texts: seq<string>)
    requires texts != []
    ensures Spelled(texts) ==
            if SegmentText(texts[0]) then Prepend([Pad(texts[0])], Spelled(texts[1..])) else None
  {
    assert forall i :: 0 < i < |texts| ==> texts[i] == texts[1..][i - 1];
    assert forall i :: 0 <= i < |texts[1..]| ==> texts[1..][i] == texts[i + 1];
    if AllSegmentTexts(texts) {
      assert Padded(texts) == [Pad(texts[0])] + Padded(texts[1..]);
    }
  }

  lemma ReadOneMore(pre: string, first: string, rest: seq<string>)
    requires NoDot(first)
    ensures SegmentsFrom(pre + (first + "." + Join(rest)), |pre|) ==
            if SegmentText(first)
            then Prepend([Pad(first)], SegmentsFrom(pre + first + "." + Join(rest), |pre + first + "."|))
            else None
  {
    Regroup(pre, first, Join(rest));
    FirstSegment(pre + (first + "." + Join(rest)), |pre|, first);
  }

  lemma {:induction false} CaretsReadBack(prefix: string, rest: string, i: nat)
    requires i <= |prefix| && (rest != [] ==> rest[0] != '^')
    ensures CaretsFrom(prefix + rest, i) == CaretsFrom(prefix, i)
    decreases |prefix| - i
  {
    if i < |prefix| && prefix[i] == '^' {
      CaretsReadBack(prefix, rest, i + 1);
    }
  }

  lemma PrefixReadBack(prefix: string, rest: string)
    requires PrefixOk(prefix) && (rest != [] ==> rest[0] != '^' && rest[0] != '\\')
    ensures PrefixEnd(prefix + rest) == Some(|prefix|)
  {
    CaretsReadBack(prefix, rest, 0);
  }

  /** What a prefix and dotted texts mean: the prefix, and each text padded with underscores, if each is a segment. */
  lemma DottedMeaning(prefix: string, texts: seq<string>)
    requires PrefixOk(prefix) && texts != [] && Undotted(texts) && Join(texts) != []
    requires Join(texts)[0] != '^' && Join(texts)[0] != '\\'
    ensures Meaning(prefix + Join(texts)) ==
            if AllSegmentTexts(texts) then Some(Name(prefix, Padded(texts))) else None
  {
    var path := prefix + Join(texts);
    assert path[..|prefix|] == prefix;
    SegmentsReadBack(prefix, texts);
    PrefixReadBack(prefix, Join(texts));
  }

  lemma JoinFirst(segments: seq<string>)
    requires segments != [] && Segments(segments)
    ensures Join(segments) != [] && IsLead(Join(segments)[0])
  {
  }

  lemma FullIsPadded(segments: seq<string>)
    requires Segments(segments)
    ensures Undotted(segments) && AllSegmentTexts(segments) && Padded(segments) == segments
  {
    forall i | 0 <= i < |segments|
      ensures SegmentText(segments[i]) && NoDot(segments[i]) && Pad(segments[i]) == segments[i]
    {
      assert Segment(segments[i]);
    }
  }

  /** The parser undoes the printer: a printed name spells that name. */
  lemma PrintedMeansName(n: Name)
    requires PrefixOk(n.prefix) && Segments(n.segments) && (n.prefix != [] || n.segments != [])
    ensures Meaning(Printed(n)) == Some(n)
  {
    if n.segments == [] {
      assert Printed(n) == n.prefix && n.prefix[..|n.prefix|] == n.prefix;
    } else {
      JoinFirst(n.segments);
      FullIsPadded(n.segments);
      DottedMeaning(n.prefix, n.segments);
    }
  }

  // ----------------------------------------------------------- by character

  /** A segment has one to four characters, capital letters, digits and underscores, and does not begin with a digit. */
  lemma SegmentTextIs(s: string)
    ensures SegmentText(s) <==>
            1 <= |s| <= 4 && !('0' <= s[0] <= '9') &&
            forall i :: 0 <= i < |s| ==> 'A' <= s[i] <= 'Z' || '0' <= s[i] <= '9' || s[i] == '_'
  {
    if |s| > 0 && AllNameChars(s) {
      assert IsNameChar(s[0]);
    }
  }

  /** Shorter ones are filled up on the right. */
  lemma PadFillsRight(a: char, b: char, c: char, d: char)
    ensures Pad([a]) == [a, '_', '_', '_']
    ensures Pad([a, b]) == [a, b, '_', '_']
    ensures Pad([a, b, c]) == [a, b, c, '_']
    ensures Pad([a, b, c, d]) == [a, b, c, d]
  {
  }

  /** A prefix is any number of '^' up to 17, and possibly a '\' after them. */
  lemma {:induction false} PrefixIs(k: nat)
    ensures PrefixOk(seq(k, _ => '^')) <==> k <= 17
    ensures PrefixOk(seq(k, _ => '^') + "\\") <==> k <= 17
  {
    CaretsToEnd(k, 0, []);
    CaretsToEnd(k, 0, "\\");
    assert seq(k, _ => '^') + [] == seq(k, _ => '^');
  }

  lemma {:induction false} CaretsToEnd(k: nat, i: nat, rest: string)
    requires i <= k && (rest != [] ==> rest[0] != '^')
    ensures CaretsFrom(seq(k, _ => '^') + rest, i) == k
    decreases k - i
  {
    if i < k {
      CaretsToEnd(k, i + 1, rest);
    }
  }

  /** What some texts mean. */
  lemma KnownPath()
    ensures Meaning("\\_SB.X") == Some(Name("\\", ["_SB_", "X___"]))
  {
    PadFillsRight('X', 'X', 'X', 'X');
    PadFillsRight('_', 'S', 'B', 'X');
    TwoTexts("\\", "_SB", "X");
    assert "\\" + "_SB" + "." + "X" == "\\_SB.X";
  }

  lemma KnownParentPath()
    ensures Meaning("^^A1") == Some(Name("^^", ["A1__"]))
  {
    PrefixIs(2);
    assert seq(2, _ => '^') == "^^";
    PadFillsRight('A', '1', 'X', 'X');
    OneText("^^", "A1");
    assert "^^" + "A1" == "^^A1";
  }

  /** A digit first, five characters, an empty segment, an empty path. */
  lemma KnownRefusals()
    ensures Meaning("A.1B") == None && Meaning("ABCDE") == None && Meaning("A..B") == None && Meaning("") == None
  {
    DigitFirst();
    FiveCharacters();
    EmptyMiddle();
  }

  lemma DigitFirst()
    ensures Meaning("A.1B") == None
  {
    TwoTexts("", "A", "1B");
    assert "" + "A" + "." + "1B" == "A.1B";
  }

  lemma FiveCharacters()
    ensures Meaning("ABCDE") == None
  {
    OneText("", "ABCDE");
    assert "" + "ABCDE" == "ABCDE";
  }

  lemma EmptyMiddle()
    ensures Meaning("A..B") == None
  {
    ThreeTexts("", "A", "", "B");
    assert "" + "A" + "." + "" + "." + "B" == "A..B";
  }

  lemma OneText(prefix: string, a: string)
    requires PrefixOk(prefix) && NoDot(a) && a != [] && a[0] != '^' && a[0] != '\\'
    ensures Meaning(prefix + a) == if SegmentText(a) then Some(Name(prefix, [Pad(a)])) else None
  {
    DottedMeaning(prefix, [a]);
    SpelledOne([a]);
  }

  lemma TwoTexts(prefix: string, a: string, b: string)
    requires PrefixOk(prefix) && NoDot(a) && NoDot(b) && a != [] && a[0] != '^' && a[0] != '\\'
    ensures Meaning(prefix + a + "." + b) ==
            if SegmentText(a) && SegmentText(b) then Some(Name(prefix, [Pad(a), Pad(b)])) else None
  {
    var texts := [a, b];
    assert texts[1..] == [b] && Join(texts) == a + "." + b;
    assert prefix + (a + "." + b) == prefix + a + "." + b;
    DottedMeaning(prefix, texts);
    SpelledTwo(a, b);
  }

  lemma SpelledTwo(a: string, b: string)
    ensures Spelled([a, b]) == if SegmentText(a) && SegmentText(b) then Some([Pad(a), Pad(b)]) else None
  {
    if AllSegmentTexts([a, b]) {
      assert SegmentText([a, b][0]) && SegmentText([a, b][1]);
      assert Padded([a, b]) == [Pad(a), Pad(b)];
    }
  }

  lemma ThreeTexts(prefix: string, a: string, b: string, c: string)
    requires PrefixOk(prefix) && NoDot(a) && NoDot(b) && NoDot(c) && a != [] && a[0] != '^' && a[0] != '\\'
    ensures Meaning(prefix + a + "." + b + "." + c) ==
            if SegmentText(a) && SegmentText(b) && SegmentText(c) then Some(Name(prefix, [Pad(a), Pad(b), Pad(c)]))
            else None
  {
    var texts := [a, b, c];
    assert texts[1..] == [b, c] && [b, c][1..] == [c] && Join([b, c]) == b + "." + c;
    assert Join(texts) == a + "." + (b + "." + c);
    assert prefix + (a + "." + (b + "." + c)) == prefix + a + "." + b + "." + c;
    DottedMeaning(prefix, texts);
    SpelledThree(a, b, c);
  }

  lemma SpelledThree(a: string, b: string, c: string)
    ensures Spelled([a, b, c]) ==
            if SegmentText(a) && SegmentText(b) && SegmentText(c) then Some([Pad(a), Pad(b), Pad(c)]) else None
  {
    if AllSegmentTexts([a, b, c]) {
      assert SegmentText([a, b, c][0]) && SegmentText([a, b, c][1]) && SegmentText([a, b, c][2]);
      assert Padded([a, b, c]) == [Pad(a), Pad(b), Pad(c)];
    }
  }

  /** What a name is printed as. */
  lemma KnownPrints(prefix: string, a: string, b: string)
    ensures Printed(Name(prefix, [a, b])) == prefix + (a + "." + b)
    ensures Printed(Name(prefix, [a])) == prefix + a
  {
    assert [a, b][1..] == [b] && Join([b]) == b && Join([a, b]) == a + "." + b;
    assert Join([a]) == a;
  }

  // ---------------------------------------------------------------- parser

  /** The prefix loop. */
  method ParsePrefix(path: string) returns (ok: bool, cursor: nat)
    ensures ok <==> PrefixEnd(path).Some?
    ensures ok ==> PrefixEnd(path) == Some(cursor) && cursor <= |path|
  {
    cursor := 0;
    while cursor < |path|
      invariant cursor <= |path| && cursor <= PREFIX_CAPACITY
      invariant CaretsFrom(path, cursor) == CaretsFrom(path, 0) && CaretsFrom(path, 0) >= cursor
      invariant forall k :: 0 <= k < cursor ==> path[k] == '^'
    {
      if path[cursor] == '\\' {
        return true, cursor + 1;
      } else if path[cursor] == '^' {
        if cursor >= PREFIX_CAPACITY {
          return false, cursor;
        }
        cursor := cursor + 1;
      } else {
        break;
      }
    }
    return true, cursor;
  }

  /**
   Where the parser is: start is where the current segment began, and ended says that the
   segment has just been taken.  whole is what the whole text means.
   */
  ghost predicate Reading(path: string, start: nat, cursor: nat, segLength: nat, ended: bool, done: seq<string>,
                          whole: Option<seq<string>>) {
    start <= cursor <= |path| && segLength <= SEGMENT_SIZE && start + segLength == cursor &&
    AllNameChars(path[start..cursor]) && (segLength > 0 ==> IsLead(path[start])) &&
    if ended then Taken(path, start, cursor, done, whole) else Within(path, start, cursor, segLength, done, whole)
  }

  ghost predicate Taken(path: string, start: nat, cursor: nat, done: seq<string>, whole: Option<seq<string>>)
    requires start <= cursor <= |path|
  {
    start < cursor && (cursor < |path| ==> path[cursor] == '.') &&
    whole == (if cursor == |path| then Some(done) else Prepend(done, SegmentsFrom(path, cursor + 1)))
  }

  ghost predicate Within(path: string, start: nat, cursor: nat, segLength: nat, done: seq<string>,
                         whole: Option<seq<string>>)
    requires start <= cursor <= |path|
  {
    cursor < |path| && segLength < SEGMENT_SIZE && (segLength > 0 ==> path[cursor] != '.') &&
    whole == Prepend(done, SegmentsFrom(path, start))
  }

  lemma {:induction false} NoDotSoFar(path: string, start: nat, cursor: nat)
    requires start <= cursor <= |path| && AllNameChars(path[start..cursor])
    ensures SegmentEnd(path, start) == SegmentEnd(path, cursor)
    decreases cursor - start
  {
    if start < cursor {
      assert path[start..cursor][0] == path[start];
      assert path[start + 1..cursor] == path[start..cursor][1..];
      NoDotSoFar(path, start + 1, cursor);
    }
  }

  lemma MoreNameChars(path: string, start: nat, cursor: nat)
    requires start <= cursor < |path| && AllNameChars(path[start..cursor]) && IsNameChar(path[cursor])
    ensures AllNameChars(path[start..cursor + 1])
  {
    assert path[start..cursor + 1] == path[start..cursor] + [path[cursor]];
  }

  /** The character at the cursor can be in no segment that begins at start. */
  lemma BadChar(path: string, start: nat, cursor: nat)
    requires start <= cursor < |path| && AllNameChars(path[start..cursor])
    requires path[cursor] != '.' && (!IsNameChar(path[cursor]) || (start == cursor && !IsLead(path[cursor])))
    ensures SegmentsFrom(path, start) == None
  {
  }

  lemma EmptySegment(path: string, start: nat)
    requires start <= |path| && (start < |path| ==> path[start] == '.')
    ensures SegmentsFrom(path, start) == None
  {
  }

  /** A fifth character before the next dot. */
  lemma TooLong(path: string, start: nat, cursor: nat)
    requires start + SEGMENT_SIZE == cursor < |path| && AllNameChars(path[start..cursor]) && path[cursor] != '.'
    ensures SegmentsFrom(path, start) == None
  {
  }

  /** A segment that ends before the cursor. */
  lemma SegmentTaken(path: string, start: nat, cursor: nat, done: seq<string>, whole: Option<seq<string>>)
    requires start < cursor <= |path| && cursor - start <= SEGMENT_SIZE
    requires AllNameChars(path[start..cursor]) && IsLead(path[start]) && (cursor < |path| ==> path[cursor] == '.')
    requires whole == Prepend(done, SegmentsFrom(path, start))
    ensures Taken(path, start, cursor, done + [Pad(path[start..cursor])], whole)
  {
    NextSegment(path, start, cursor);
    if cursor < |path| {
      PrependTwice(done, [Pad(path[start..cursor])], SegmentsFrom(path, cursor + 1));
    }
  }

  lemma PrependTwice(a: seq<string>, b: seq<string>, rest: Option<seq<string>>)
    ensures Prepend(a, Prepend(b, rest)) == Prepend(a + b, rest)
  {
    if rest.Some? {
      assert a + (b + rest.value) == a + b + rest.value;
    }
  }

  lemma NextSegment(path: string, start: nat, cursor: nat)
    requires start < cursor <= |path| && cursor - start <= SEGMENT_SIZE
    requires AllNameChars(path[start..cursor]) && IsLead(path[start]) && (cursor < |path| ==> path[cursor] == '.')
    ensures var first := [Pad(path[start..cursor])];
            SegmentsFrom(path, start) == if cursor == |path| then Some(first)
              else Prepend(first, SegmentsFrom(path, cursor + 1))
  {
    NoDotSoFar(path, start, cursor);
    assert SegmentEnd(path, start) == cursor;
    assert SegmentText(path[start..cursor]);
  }

  /** One character of the segments loop. */
  method ParseChar(path: string, cursor: nat, segLength: nat, done: seq<string>, ghost start: nat, ghost ended: bool,
                   ghost whole: Option<seq<string>>)
    returns (ok: bool, newLength: nat, segments: seq<string>, ghost newStart: nat, ghost newEnded: bool)
    requires cursor < |path| && Reading(path, start, cursor, segLength, ended, done, whole)
    ensures !ok ==> whole == None
    ensures ok ==> Reading(path, newStart, cursor + 1, newLength, newEnded, segments, whole)
  {
    segments, newStart, newEnded, newLength := done, start, false, segLength;
    if IsNameChar(path[cursor]) {
      if IsDigit(path[cursor]) && segLength == 0 {
        BadChar(path, start, cursor);
        return false, newLength, segments, newStart, newEnded;
      }
      newLength := segLength + 1;
      MoreNameChars(path, start, cursor);
    } else if path[cursor] == '.' {
      if segLength == 0 {
        EmptySegment(path, start);
        return false, newLength, segments, newStart, newEnded;
      }
      newLength, newStart := 0, cursor + 1;
    } else {
      BadChar(path, start, cursor);
      return false, newLength, segments, newStart, newEnded;
    }
    if newLength > SEGMENT_SIZE {
      return false, newLength, segments, newStart, newEnded;
    }
    ok, segments, newEnded := EndSegment(path, cursor, newLength, segments, newStart, whole);
  }

  /** Take the segment if its last character has been read. */
  method EndSegment(path: string, cursor: nat, segLength: nat, done: seq<string>, ghost start: nat,
                    ghost whole: Option<seq<string>>)
    returns (ok: bool, segments: seq<string>, ghost ended: bool)
    requires cursor < |path| && segLength <= SEGMENT_SIZE && start + segLength == cursor + 1
    requires AllNameChars(path[start..cursor + 1]) && (segLength > 0 ==> IsLead(path[start]))
    requires whole == Prepend(done, SegmentsFrom(path, start))
    ensures !ok ==> whole == None
    ensures ok ==> Reading(path, start, cursor + 1, segLength, ended, segments, whole)
  {
    segments, ended := done, false;
    var isLastSegChar := |path| - cursor >= 2 && path[cursor + 1] == '.';
    var endNameSeg := isLastSegChar || |path| - cursor <= 1 || segLength >= SEGMENT_SIZE;
    if endNameSeg {
      if segLength == 0 {
        EmptySegment(path, start);
        return false, segments, ended;
      }
      var segment := path[cursor + 1 - segLength..cursor + 1];
      if |path| - cursor >= 2 && path[cursor + 1] != '.' {
        TooLong(path, start, cursor + 1);
        return false, segments, ended;
      }
      SegmentTaken(path, start, cursor + 1, done, whole);
      segments, ended := done + [Pad(segment)], true;
    }
    return true, segments, ended;
  }

  /** AmlPathStringToNameStringInternal: it accepts exactly the paths that have a meaning, and yields it. */
  method Parse(path: string) returns (ok: bool, name: Name)
    ensures ok <==> Meaning(path).Some?
    ensures ok ==> Some(name) == Meaning(path)
  {
    name := Name([], []);
    if |path| <= 0 {
      return false, name;
    }
    var cursor;
    ok, cursor := ParsePrefix(path);
    if !ok {
      return false, name;
    }
    var prefix := path[..cursor];
    if cursor == |path| {
      return true, Name(prefix, []);
    }
    var segLength: nat, segments: seq<string> := 0, [];
    ghost var start: nat, ended, whole := cursor, false, SegmentsFrom(path, cursor);
    assert whole.Some? ==> [] + whole.value == whole.value;
    while cursor < |path|
      invariant Reading(path, start, cursor, segLength, ended, segments, whole)
      decreases |path| - cursor
    {
      ok, segLength, segments, start, ended := ParseChar(path, cursor, segLength, segments, start, ended, whole);
      if !ok {
        return false, name;
      }
      cursor := cursor + 1;
    }
    return true, Name(prefix, segments);
  }

  // -------------------------------------------------------------- capacity

  function TotalLength(texts: seq<string>): nat {
    if texts == [] then 0 else |texts[0]| + TotalLength(texts[1..])
  }

  lemma {:induction false} JoinLength(texts: seq<string>)
    requires texts != []
    ensures |Join(texts)| == TotalLength(texts) + |texts| - 1
    decreases |texts|
  {
    if |texts| > 1 {
      JoinLength(texts[1..]);
    }
  }

  lemma {:induction false} FullSegments(texts: seq<string>)
    requires Segments(texts)
    ensures TotalLength(texts) == SEGMENT_SIZE * |texts|
    decreases |texts|
  {
    if texts != [] {
      assert Segment(texts[0]);
      FullSegments(texts[1..]);
    }
  }

  /** The parser makes room for n dotted segments exactly when they have at least 3 * n - 2 characters in all. */
  lemma RoomForSegments(prefix: string, texts: seq<string>)
    requires texts != []
    ensures |texts| <= Capacity(prefix + Join(texts), |prefix|) <==> TotalLength(texts) >= 3 * |texts| - 2
  {
    JoinLength(texts);
  }

  /** So there is always room for full segments of four characters. */
  lemma {:induction false} FullSegmentsFit(prefix: string, texts: seq<string>)
    requires texts != [] && Segments(texts)
    ensures |texts| <= Capacity(prefix + Join(texts), |prefix|)
  {
    FullSegments(texts);
    RoomForSegments(prefix, texts);
  }
}

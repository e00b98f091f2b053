/**
 * Markup handling of the text renderer: the tag-position heuristic (`_isInTag`) and the
 * split of a chunk into tag and text segments (`_parseText`).
 */
module Markup {
  import opened JsStrings

  /** A piece of a chunk: a literal tag, shown at once, or a run of plain text,
      shown one character at a time. */
  datatype Segment = Text(content: string) | Tag(content: string)

  /** The segments' contents, concatenated in order (`segments.map(s => s.content).join('')`). */
  function Join(segments: seq<Segment>): string
  {
    if segments == [] then ""
    else Join(segments[..|segments| - 1]) + segments[|segments| - 1].content
  }

  lemma JoinAppend(segments: seq<Segment>, x: Segment)
    ensures Join(segments + [x]) == Join(segments) + x.content
  {
    assert (segments + [x])[..|segments|] == segments;
  }

  // ---------------------------------------------------------------------------
  // _isInTag

  /** `_isInTag(text, index)`: the last `'<'` at or before `index` lies after the last `'>'`
      at or before `index`. */
  function IsInTag(text: string, index: nat): bool
  {
    LastIndexOf(text, "<", index) > LastIndexOf(text, ">", index)
  }

  /** No `'>'` in `text` strictly after `k` and at or before `i`. */
  ghost predicate NoCloseBetween(text: string, k: int, i: int)
  {
    forall j :: k < j <= i && 0 <= j < |text| ==> text[j] != '>'
  }

  /** Some `'<'` at or before `i` is not followed, up to `i`, by a `'>'`:
      position `i` lies inside a tag that is still open. */
  ghost predicate OpenTagAt(text: string, i: int)
  {
    exists k :: 0 <= k <= i && k < |text| && text[k] == '<' && NoCloseBetween(text, k, i)
  }

  /** The heuristic is exact: `_isInTag(text, i)` holds iff position `i` is inside an open tag. */
  lemma IsInTagIff(text: string, i: nat)
    ensures IsInTag(text, i) <==> OpenTagAt(text, i)
  {
    var a := LastIndexOf(text, "<", i);
    var b := LastIndexOf(text, ">", i);
    if IsInTag(text, i) {
      MatchAtChar(text, '<', a);
      forall j | a < j <= i && 0 <= j < |text| ensures text[j] != '>' {
        LastIndexOfIsLast(text, ">", i, j);
        MatchAtChar(text, '>', j);
      }
      assert NoCloseBetween(text, a, i);
    }
    if OpenTagAt(text, i) {
      var k :| 0 <= k <= i && k < |text| && text[k] == '<' && NoCloseBetween(text, k, i);
      MatchAtChar(text, '<', k);
      if k > a {
        LastIndexOfIsLast(text, "<", i, k);
        assert false;
      }
      if b > a {
        MatchAtChar(text, '>', b);
        assert false;
      }
    }
  }

  lemma OpenTagStep(text: string, i: nat)
    requires i < |text|
    ensures text[i] == '<' ==> OpenTagAt(text, i)
    ensures text[i] == '>' ==> !OpenTagAt(text, i)
    ensures text[i] != '<' && text[i] != '>' ==> (OpenTagAt(text, i) <==> OpenTagAt(text, i - 1))
  {
    if text[i] == '<' {
      assert NoCloseBetween(text, i, i);
    }
    if text[i] != '<' && OpenTagAt(text, i) {
      var k :| 0 <= k <= i && k < |text| && text[k] == '<' && NoCloseBetween(text, k, i);
      assert k <= i - 1 && NoCloseBetween(text, k, i - 1);
    }
    if text[i] != '<' && text[i] != '>' && OpenTagAt(text, i - 1) {
      var k :| 0 <= k <= i - 1 && k < |text| && text[k] == '<' && NoCloseBetween(text, k, i - 1);
      assert NoCloseBetween(text, k, i);
    }
  }

  // ---------------------------------------------------------------------------
  // Well-formed segment sequences

  predicate NoChar(s: string, c: char)
  {
    forall j :: 0 <= j < |s| ==> s[j] != c
  }

  /** A tag is `'<'`, then characters without `'>'`, then `'>'`; a text run is non-empty and
      holds no `'<'`. */
  predicate SegmentOk(seg: Segment)
  {
    match seg
    case Tag(c) => |c| >= 2 && c[0] == '<' && c[|c| - 1] == '>' && NoChar(c[..|c| - 1], '>')
    case Text(c) => |c| > 0 && NoChar(c, '<')
  }

  /** Every segment is well shaped and no two text runs are adjacent. */
  predicate WellFormed(segments: seq<Segment>)
  {
    && (forall i :: 0 <= i < |segments| ==> SegmentOk(segments[i]))
    && (forall i :: 0 < i < |segments| ==> !(segments[i - 1].Text? && segments[i].Text?))
  }

  lemma WellFormedAppend(segments: seq<Segment>, x: Segment)
    requires WellFormed(segments) && SegmentOk(x)
    requires segments != [] && x.Text? ==> segments[|segments| - 1].Tag?
    ensures WellFormed(segments + [x])
  {
    var t := segments + [x];
    forall i | 0 <= i < |t| ensures SegmentOk(t[i]) {
      if i < |segments| { assert t[i] == segments[i]; }
    }
    forall i | 0 < i < |t| ensures !(t[i - 1].Text? && t[i].Text?) {
      if i < |segments| { assert t[i - 1] == segments[i - 1] && t[i] == segments[i]; }
    }
  }

  // ---------------------------------------------------------------------------
  // _parseText, as a scan over the input

  /** The loop's local state: finished segments, the pending text run, the pending tag and
      whether the scan is inside a tag. */
  datatype Scan = Scan(segments: seq<Segment>, text: string, tag: string, inTag: bool)

  /** One iteration of the scanning loop on character `c`. */
  function Step(st: Scan, c: char): Scan
  {
    if c == '<' then
      Scan(if st.text != "" then st.segments + [Text(st.text)] else st.segments, "", st.tag + [c], true)
    else if c == '>' && st.inTag then
      Scan(st.segments + [Tag(st.tag + [c])], st.text, "", false)
    else if st.inTag then
      st.(tag := st.tag + [c])
    else
      st.(text := st.text + [c])
  }

  /** The scan state after the first `pos` characters of `text`. */
  function ScanTo(text: string, pos: nat): Scan
    requires pos <= |text|
  {
    if pos == 0 then Scan([], "", "", false) else Step(ScanTo(text, pos - 1), text[pos - 1])
  }

  /** After the loop: a pending text run becomes a last segment; a pending tag is dropped. */
  function Finish(st: Scan): seq<Segment>
  {
    if st.text != "" then st.segments + [Text(st.text)] else st.segments
  }

  /** `_parseText(text)`. */
  function Parse(text: string): seq<Segment>
  {
    Finish(ScanTo(text, |text|))
  }

  /** What the scanning loop keeps true. */
  ghost predicate ScanInv(text: string, pos: nat, st: Scan)
    requires pos <= |text|
  {
    && Join(st.segments) + st.text + st.tag == text[..pos]
    && WellFormed(st.segments)
    && NoChar(st.text, '<')
    && (!st.inTag ==> st.tag == "")
    && (st.inTag ==> st.text == "" && |st.tag| >= 1 && st.tag[0] == '<' && NoChar(st.tag, '>'))
    && (st.segments != [] && st.segments[|st.segments| - 1].Text? ==> st.text == "" && st.inTag)
    && (st.inTag <==> OpenTagAt(text, pos - 1))
  }

  lemma {:induction false} ScanInvariant(text: string, pos: nat)
    requires pos <= |text|
    ensures ScanInv(text, pos, ScanTo(text, pos))
  {
    if pos == 0 {
      assert !OpenTagAt(text, -1);
    } else {
      ScanInvariant(text, pos - 1);
      StepKeepsInv(text, pos - 1, ScanTo(text, pos - 1));
    }
  }

  lemma StepKeepsInv(text: string, pos: nat, st: Scan)
    requires pos < |text| && ScanInv(text, pos, st)
    ensures ScanInv(text, pos + 1, Step(st, text[pos]))
  {
    var c := text[pos];
    assert text[..pos + 1] == text[..pos] + [c];
    OpenTagStep(text, pos);
    if c == '<' {
      StepOpen(text, pos, st);
    } else if c == '>' && st.inTag {
      StepClose(text, pos, st);
    } else if st.inTag {
      var st' := Step(st, c);
      assert NoChar(st'.tag, '>');
      assert Join(st'.segments) + st'.text + st'.tag == text[..pos + 1];
    } else {
      var st' := Step(st, c);
      assert NoChar(st'.text, '<');
      assert Join(st'.segments) + st'.text + st'.tag == text[..pos + 1];
    }
  }

  lemma StepOpen(text: string, pos: nat, st: Scan)
    requires pos < |text| && ScanInv(text, pos, st) && text[pos] == '<'
    requires OpenTagAt(text, pos)
    ensures ScanInv(text, pos + 1, Step(st, text[pos]))
  {
    var st' := Step(st, '<');
    assert text[..pos + 1] == text[..pos] + ['<'];
    assert st'.text == "" && st'.inTag && st'.tag == st.tag + ['<'];
    if st.text != "" {
      assert st.tag == "";
      assert st'.segments == st.segments + [Text(st.text)];
      WellFormedAppend(st.segments, Text(st.text));
      JoinAppend(st.segments, Text(st.text));
      assert Join(st'.segments) + st'.text + st'.tag == text[..pos + 1];
    } else {
      assert st'.segments == st.segments;
      assert Join(st'.segments) + st'.text + st'.tag == text[..pos + 1];
    }
    assert st'.tag[0] == '<';
    assert NoChar(st'.tag, '>');
  }

  lemma StepClose(text: string, pos: nat, st: Scan)
    requires pos < |text| && ScanInv(text, pos, st) && text[pos] == '>' && st.inTag
    requires !OpenTagAt(text, pos)
    ensures ScanInv(text, pos + 1, Step(st, text[pos]))
  {
    assert text[..pos + 1] == text[..pos] + ['>'];
    var t := st.tag + ['>'];
    assert t[..|t| - 1] == st.tag;
    WellFormedAppend(st.segments, Tag(t));
    JoinAppend(st.segments, Tag(t));
  }

  /** Shape of the segments `_parseText` returns. */
  lemma ParseWellFormed(text: string)
    ensures WellFormed(Parse(text))
  {
    ScanInvariant(text, |text|);
    var st := ScanTo(text, |text|);
    if st.text != "" {
      WellFormedAppend(st.segments, Text(st.text));
    }
  }

  /** Concatenating the segments gives back the input when it does not end inside an open
      tag; otherwise the result is the input without its unterminated trailing tag, which
      starts with `'<'` and holds no `'>'`. */
  lemma ParseJoin(text: string)
    ensures !IsInTag(text, |text|) ==> Join(Parse(text)) == text
    ensures IsInTag(text, |text|) ==>
              var n := |Join(Parse(text))|;
              n < |text| && text[..n] == Join(Parse(text)) && text[n] == '<' &&
              forall j :: n <= j < |text| ==> text[j] != '>'
  {
    ScanInvariant(text, |text|);
    IsInTagIff(text, |text|);
    OpenTagAtEnd(text);
    FinishJoin(text, ScanTo(text, |text|));
  }

  /** Past the last character, being inside a tag is decided by the last character. */
  lemma OpenTagAtEnd(text: string)
    ensures OpenTagAt(text, |text|) <==> OpenTagAt(text, |text| - 1)
  {
    if OpenTagAt(text, |text|) {
      var k :| 0 <= k <= |text| && k < |text| && text[k] == '<' && NoCloseBetween(text, k, |text|);
      assert NoCloseBetween(text, k, |text| - 1);
    }
    if OpenTagAt(text, |text| - 1) {
      var k :| 0 <= k <= |text| - 1 && k < |text| && text[k] == '<' && NoCloseBetween(text, k, |text| - 1);
      assert NoCloseBetween(text, k, |text|);
    }
  }

  /** What finishing a complete scan yields, outside and inside a pending tag. */
  lemma FinishJoin(text: string, st: Scan)
    requires ScanInv(text, |text|, st)
    ensures !st.inTag ==> Join(Finish(st)) == text
    ensures st.inTag ==>
              var n := |Join(Finish(st))|;
              n < |text| && text[..n] == Join(Finish(st)) && text[n] == '<' &&
              forall j :: n <= j < |text| ==> text[j] != '>'
  {
    assert text[..|text|] == text;
    if st.inTag {
      var n := |Join(st.segments)|;
      assert Finish(st) == st.segments;
      assert text == Join(st.segments) + st.tag;
      assert text[..n] == Join(st.segments);
      forall j | n <= j < |text| ensures text[j] != '>' {
        assert text[j] == st.tag[j - n];
      }
    } else if st.text != "" {
      JoinAppend(st.segments, Text(st.text));
    }
  }

  /** `_parseText` as the loop over local accumulators it is. */
  method ParseText(text: string) returns (segments: seq<Segment>)
    ensures segments == Parse(text)
    ensures WellFormed(segments)
    ensures !IsInTag(text, |text|) ==> Join(segments) == text
  {
    segments := [];
    var currentPos := 0;
    var inTag := false;
    var currentText := "";
    var currentTag := "";
    while currentPos < |text|
      invariant 0 <= currentPos <= |text|
      invariant Scan(segments, currentText, currentTag, inTag) == ScanTo(text, currentPos)
    {
      var c := text[currentPos];
      if c == '<' {
        if currentText != "" {
          segments := segments + [Text(currentText)];
          currentText := "";
        }
        inTag := true;
        currentTag := currentTag + [c];
      } else if c == '>' && inTag {
        currentTag := currentTag + [c];
        segments := segments + [Tag(currentTag)];
        currentTag := "";
        inTag := false;
      } else if inTag {
        currentTag := currentTag + [c];
      } else {
        currentText := currentText + [c];
      }
      currentPos := currentPos + 1;
    }
    if currentText != "" {
      segments := segments + [Text(currentText)];
    }
    ParseWellFormed(text);
    ParseJoin(text);
  }
}

/**
 * Chunk splitting of the text renderer (`_splitIntoChunks`): a long text is cut into
 * pieces of about `avgCharsPerLine * maxLinesPerChunk` characters, preferring a paragraph
 * break, then a sentence end, then a line break, then a space outside a tag, and otherwise
 * forcing a cut that avoids the inside of a tag where it can.
 *
 * The thresholds "later than 50%, 60%, 70% of the cut length" are products of the cut
 * length with the double-precision constants 0.5, 0.6 and 0.7. The first two compare
 * like exact arithmetic on integer positions (`2 * b > s`, `5 * b > 3 * s`); the third
 * does not always, see `AboveSevenTenths`.
 */
module Chunking {
  import opened JsStrings
  import opened Markup

  /** At most this many chunks are produced (`safety`). */
  const SafetyLimit: nat := 100

  /** The sentence ends searched for, in the order the source tries them. */
  const SentenceDelimiters: seq<string> := [". ", "! ", "? ", ".\n", "!\n", "?\n"]

  function Max(a: int, b: int): int { if a < b then b else a }

  predicate AllPairs(delims: seq<string>)
  {
    forall i :: 0 <= i < |delims| ==> |delims[i]| == 2
  }

  /** The latest start, at or before `s`, of any of `delims`, or -1. */
  function BestSentenceBreak(rem: string, s: nat, delims: seq<string>): (r: int)
    requires AllPairs(delims)
    ensures r == -1 || (0 <= r <= s && r + 2 <= |rem|)
  {
    if delims == [] then -1
    else
      var n := |delims| - 1;
      assert AllPairs(delims[..n]);
      Max(BestSentenceBreak(rem, s, delims[..n]), LastIndexOf(rem, delims[n], s))
  }

  /** The sentence break kept is the latest one: every delimiter's last occurrence is at
      or before it, and it is itself an occurrence of one of them. */
  lemma {:induction false} BestSentenceBreakIsLatest(rem: string, s: nat, delims: seq<string>)
    requires AllPairs(delims)
    ensures var r := BestSentenceBreak(rem, s, delims);
            && (forall i :: 0 <= i < |delims| ==> LastIndexOf(rem, delims[i], s) <= r)
            && (r >= 0 ==> exists i :: 0 <= i < |delims| && MatchAt(rem, delims[i], r))
  {
    if delims != [] {
      var n := |delims| - 1;
      assert AllPairs(delims[..n]);
      BestSentenceBreakIsLatest(rem, s, delims[..n]);
      assert forall i :: 0 <= i < n ==> delims[..n][i] == delims[i];
    }
  }

  /** The space search: while the found space is inside a tag, look for the previous one. */
  function SpaceBreakFrom(rem: string, p: int): (r: int)
    requires p == -1 || MatchAt(rem, " ", p)
    ensures r == -1 || (MatchAt(rem, " ", r) && r <= p)
    ensures r > 0 ==> !IsInTag(rem, r)
    decreases p + 1
  {
    if p > 0 && IsInTag(rem, p) then SpaceBreakFrom(rem, LastIndexOf(rem, " ", p - 1)) else p
  }

  /** The backing-up loop of a forced cut: step left while the position is inside a tag. */
  function BackUp(rem: string, s: nat): (r: nat)
    ensures r <= s
    ensures r == 0 || !IsInTag(rem, r)
  {
    if IsInTag(rem, s) && s > 0 then BackUp(rem, s - 1) else s
  }

  /** Backing up stops at the nearest position outside a tag: every position it passed over
      is inside one. */
  lemma {:induction false} BackUpIsNearest(rem: string, s: nat, j: nat)
    requires BackUp(rem, s) < j <= s
    ensures IsInTag(rem, j)
  {
    if j < s && IsInTag(rem, s) {
      BackUpIsNearest(rem, s - 1, j);
    }
  }

  /** A forced cut at `target`: back up out of a tag, step past an empty tag `"<>"` that
      starts just before the cut, and always cut at least one character. */
  function ForcedSplit(rem: string, target: nat): (r: nat)
    requires target < |rem|
    ensures 1 <= r <= target + 1
  {
    var b := BackUp(rem, target);
    ForcedSplitBound(rem, b);
    var m := if b >= 1 && rem[b - 1] == '<' then IndexOf(rem, ">", b) + 1 else b;
    Max(m, 1)
  }

  /** Backing up stops at a position outside every tag, so when the character before it
      is `'<'` the character at it must be `'>'`. */
  lemma ForcedSplitBound(rem: string, b: nat)
    requires b < |rem|
    requires b == 0 || !IsInTag(rem, b)
    ensures b >= 1 && rem[b - 1] == '<' ==> IndexOf(rem, ">", b) == b
  {
    if b >= 1 && rem[b - 1] == '<' {
      IsInTagIff(rem, b);
      assert !NoCloseBetween(rem, b - 1, b);
      MatchAtChar(rem, '>', b);
    }
  }

  predicate IsPowerOfTwo(p: nat)
  {
    p == 1 || (p >= 2 && p % 2 == 0 && IsPowerOfTwo(p / 2))
  }

  /** The largest power of two not above `n`. */
  function FloorPow2(n: nat): (p: nat)
    requires n >= 1
    ensures IsPowerOfTwo(p) && p <= n < 2 * p
  {
    if n == 1 then 1
    else
      var h := FloorPow2(n / 2);
      assert IsPowerOfTwo(2 * h) by { assert (2 * h) / 2 == h; }
      2 * h
  }

  /** `b > s * 0.7` in double precision, for integer positions below 2^50. The double
      nearest 0.7 is 0.7 - 2^-52 / 5, so `s * 0.7` is rounded from just below `7 * s / 10`.
      When `s` is not a multiple of 10 that changes no comparison with an integer. When
      `s == 10 * k` the exact product is `7 * k - k * 2^-51`, and it rounds down to the
      double below `7 * k` exactly when `k * 2^-51` exceeds half the spacing of doubles
      there, `2^(E - 53)` with `2^E` the largest power of two not above `7 * k`; a tie
      rounds to the even neighbour `7 * k`. Then `b == 7 * k` also passes. */
  predicate AboveSevenTenths(b: int, s: nat)
  {
    10 * b > 7 * s
    || (10 * b == 7 * s && s >= 10 && 4 * (s / 10) > FloorPow2(7 * (s / 10)))
  }

  /** The rounded threshold differs from the exact one only at `b == 7 * s / 10`: it lets a
      line break at 63 through a cut of 90 (`63 > 62.99999999999999`) and at 119 through
      170, but not at 70 through 100 or at 112 through 160 (a tie). */
  lemma SevenTenthsExamples()
    ensures AboveSevenTenths(63, 90) && AboveSevenTenths(119, 170)
    ensures !AboveSevenTenths(70, 100) && !AboveSevenTenths(112, 160)
  {
    assert FloorPow2(1) == 1 && FloorPow2(3) == 2 && FloorPow2(7) == 4 && FloorPow2(14) == 8;
    assert FloorPow2(15) == 8 && FloorPow2(31) == 16 && FloorPow2(63) == 32;
    assert FloorPow2(29) == 16 && FloorPow2(59) == 32 && FloorPow2(119) == 64;
    assert FloorPow2(2) == 2 && FloorPow2(4) == 4 && FloorPow2(8) == 8;
    assert FloorPow2(17) == 16 && FloorPow2(35) == 32 && FloorPow2(70) == 64;
    assert FloorPow2(28) == 16 && FloorPow2(56) == 32 && FloorPow2(112) == 64;
  }

  /** Off multiples of 10, such as the default cut length 165, the rounded threshold is
      the exact comparison. */
  lemma SevenTenthsOffMultiplesOfTen(b: int, s: nat)
    requires s % 10 != 0
    ensures AboveSevenTenths(b, s) <==> 10 * b > 7 * s
  {
    var q, r := s / 10, s % 10;
    assert s == 10 * q + r && 1 <= r <= 9;
  }

  /** The preferred break point for a cut of length `s` (`-1` when there is none). */
  function BreakPoint(rem: string, s: nat): (r: int)
    requires 0 < s < |rem|
    ensures r == -1 || (0 < r <= |rem| && r <= s + 2)
  {
    var para := LastIndexOf(rem, "\n\n", s);
    if 2 * para > s then para + 2
    else
      var sentence := BestSentenceBreak(rem, s, SentenceDelimiters);
      if 5 * sentence > 3 * s then sentence + 2
      else
        var line := LastIndexOf(rem, "\n", s);
        if AboveSevenTenths(line, s) then line + 1
        else
          var space := SpaceBreakFrom(rem, LastIndexOf(rem, " ", s));
          if space > 0 then space + 1 else -1
  }

  /** A text whose only line break before a cut of 90 is at 63, with no earlier paragraph
      or sentence break that qualifies, is cut after that line break. */
  lemma RoundedLineBreakExample(rem: string)
    requires |rem| > 90
    requires LastIndexOf(rem, "\n\n", 90) <= 45
    requires BestSentenceBreak(rem, 90, SentenceDelimiters) <= 54
    requires LastIndexOf(rem, "\n", 90) == 63
    ensures BreakPoint(rem, 90) == 64 && SplitIndex(rem, 90) == 64
  {
    assert AboveSevenTenths(63, 90) by { SevenTenthsExamples(); }
  }

  /** The length of the next chunk of `rem`. */
  function SplitIndex(rem: string, maxChars: nat): (r: nat)
    requires maxChars >= 1 && |rem| > 0
    ensures 1 <= r <= |rem|
    ensures r <= maxChars + 2
    ensures |rem| <= maxChars ==> r == |rem|
  {
    var s := if maxChars < |rem| then maxChars else |rem|;
    if s < |rem| then
      var bp := BreakPoint(rem, s);
      if bp > 0 then bp else ForcedSplit(rem, s)
    else s
  }

  /** A space chosen as the break point is never inside a tag, so the chunk it ends does
      not end inside a tag. */
  lemma SpaceBreakOutsideTag(rem: string, s: nat)
    requires 0 < s < |rem|
    ensures var space := SpaceBreakFrom(rem, LastIndexOf(rem, " ", s));
            space > 0 ==> rem[space] == ' ' && !OpenTagAt(rem, space)
  {
    var space := SpaceBreakFrom(rem, LastIndexOf(rem, " ", s));
    if space > 0 {
      MatchAtChar(rem, ' ', space);
      IsInTagIff(rem, space);
    }
  }

  /** The `forEach` over the sentence delimiters, keeping the latest match. */
  method FindSentenceBreak(rem: string, splitIndex: nat) returns (bestSentenceBreak: int)
    ensures bestSentenceBreak == BestSentenceBreak(rem, splitIndex, SentenceDelimiters)
  {
    bestSentenceBreak := -1;
    for i := 0 to |SentenceDelimiters|
      invariant bestSentenceBreak == BestSentenceBreak(rem, splitIndex, SentenceDelimiters[..i])
    {
      assert SentenceDelimiters[..i + 1][..i] == SentenceDelimiters[..i];
      bestSentenceBreak := Max(bestSentenceBreak, LastIndexOf(rem, SentenceDelimiters[i], splitIndex));
    }
    assert SentenceDelimiters[..|SentenceDelimiters|] == SentenceDelimiters;
  }

  /** The loop that skips spaces inside tags. */
  method FindSpaceBreak(rem: string, splitIndex: nat) returns (potentialSpaceBreak: int)
    ensures potentialSpaceBreak == SpaceBreakFrom(rem, LastIndexOf(rem, " ", splitIndex))
  {
    potentialSpaceBreak := LastIndexOf(rem, " ", splitIndex);
    while potentialSpaceBreak > 0 && IsInTag(rem, potentialSpaceBreak)
      invariant potentialSpaceBreak == -1 || MatchAt(rem, " ", potentialSpaceBreak)
      invariant SpaceBreakFrom(rem, potentialSpaceBreak) == SpaceBreakFrom(rem, LastIndexOf(rem, " ", splitIndex))
      decreases potentialSpaceBreak + 1
    {
      potentialSpaceBreak := LastIndexOf(rem, " ", potentialSpaceBreak - 1);
    }
  }

  /** The backing-up loop of a forced cut. */
  method BackUpOutOfTag(rem: string, target: nat) returns (splitIndex: nat)
    ensures splitIndex == BackUp(rem, target)
  {
    splitIndex := target;
    while IsInTag(rem, splitIndex) && splitIndex > 0
      invariant splitIndex <= target
      invariant BackUp(rem, splitIndex) == BackUp(rem, target)
    {
      splitIndex := splitIndex - 1;
    }
  }

  /** The forced cut: back up, then step past an empty tag and cut at least one character. */
  method FindForcedSplit(rem: string, target: nat) returns (splitIndex: nat)
    requires target < |rem|
    ensures splitIndex == ForcedSplit(rem, target)
  {
    splitIndex := BackUpOutOfTag(rem, target);
    if splitIndex >= 1 && rem[splitIndex - 1] == '<' {
      splitIndex := IndexOf(rem, ">", splitIndex) + 1;
    }
    splitIndex := Max(splitIndex, 1);
  }

  /** The break-point search of one cut, written as the source writes it. */
  method FindSplitIndex(rem: string, maxChars: nat) returns (splitIndex: nat)
    requires maxChars >= 1 && |rem| > 0
    ensures splitIndex == SplitIndex(rem, maxChars)
    ensures 1 <= splitIndex <= |rem|
  {
    splitIndex := if maxChars < |rem| then maxChars else |rem|;
    if splitIndex < |rem| {
      var breakPoint := -1;
      var paraBreak := LastIndexOf(rem, "\n\n", splitIndex);
      if 2 * paraBreak > splitIndex { breakPoint := paraBreak + 2; }
      if breakPoint < 0 {
        var bestSentenceBreak := FindSentenceBreak(rem, splitIndex);
        if 5 * bestSentenceBreak > 3 * splitIndex { breakPoint := bestSentenceBreak + 2; }
      }
      if breakPoint < 0 {
        var lineBreak := LastIndexOf(rem, "\n", splitIndex);
        if AboveSevenTenths(lineBreak, splitIndex) { breakPoint := lineBreak + 1; }
      }
      if breakPoint < 0 {
        var potentialSpaceBreak := FindSpaceBreak(rem, splitIndex);
        if potentialSpaceBreak > 0 { breakPoint := potentialSpaceBreak + 1; }
      }
      assert breakPoint == BreakPoint(rem, splitIndex);
      if breakPoint > 0 {
        splitIndex := breakPoint;
      } else {
        splitIndex := FindForcedSplit(rem, splitIndex);
      }
    }
  }

  // ---------------------------------------------------------------------------
  // The sequence of chunks

  /** Chunks are concatenated in order. */
  function Concat(chunks: seq<string>): string
  {
    if chunks == [] then "" else chunks[0] + Concat(chunks[1..])
  }

  /** The length of the next chunk as a function of what remains of the text. */
  function Cutter(maxChars: nat): string -> nat
  {
    (rem: string) => if maxChars >= 1 && |rem| > 0 then SplitIndex(rem, maxChars) else 0
  }

  /** `cut` takes at least one of the remaining characters and never more than remain. */
  ghost predicate CutsOk(cut: string -> nat)
  {
    forall rem: string :: |rem| > 0 ==> 1 <= cut(rem) <= |rem|
  }

  /** `cut` takes at most `most` characters. */
  ghost predicate CutsAtMost(cut: string -> nat, most: nat)
  {
    forall rem: string :: |rem| > 0 ==> cut(rem) <= most
  }

  lemma CutterOk(maxChars: nat)
    requires maxChars >= 1
    ensures CutsOk(Cutter(maxChars)) && CutsAtMost(Cutter(maxChars), maxChars + 2)
  {
  }

  /** The chunks the loop produces from `rem`, cutting `cut(rem)` characters at a time,
      with `fuel` iterations of its safety counter left. */
  function ChunksFrom(rem: string, cut: string -> nat, fuel: nat): seq<string>
    requires CutsOk(cut)
    decreases fuel
  {
    if |rem| == 0 || fuel == 0 then []
    else
      var k := cut(rem);
      [rem[..k]] + ChunksFrom(rem[k..], cut, fuel - 1)
  }

  /** `_splitIntoChunks` applied to `text`. */
  function Chunks(text: string, maxChars: nat): seq<string>
    requires maxChars >= 1
  {
    CutterOk(maxChars);
    ChunksFrom(text, Cutter(maxChars), SafetyLimit)
  }

  /** The chunking loop in accumulator form: `acc` holds the chunks pushed so far. */
  function CollectChunks(acc: seq<string>, rem: string, cut: string -> nat, fuel: nat): seq<string>
    requires CutsOk(cut)
    decreases fuel
  {
    if |rem| == 0 || fuel == 0 then acc
    else
      var k := cut(rem);
      CollectChunks(acc + [rem[..k]], rem[k..], cut, fuel - 1)
  }

  /** One turn of the accumulating loop, from `acc`, `rem`, `fuel` to `acc'`, `rem'`, `fuel'`. */
  lemma CollectChunksStep(acc: seq<string>, rem: string, cut: string -> nat, fuel: nat,
                          acc': seq<string>, rem': string, fuel': nat)
    requires CutsOk(cut) && |rem| > 0 && fuel == fuel' + 1
    requires cut(rem) <= |rem| && acc' == acc + [rem[..cut(rem)]] && rem' == rem[cut(rem)..]
    ensures CollectChunks(acc', rem', cut, fuel') == CollectChunks(acc, rem, cut, fuel)
  {
  }

  /** Accumulating the chunks is appending `ChunksFrom` to what was collected. */
  lemma {:induction false} CollectChunksAppends(acc: seq<string>, rem: string, cut: string -> nat, fuel: nat)
    requires CutsOk(cut)
    ensures CollectChunks(acc, rem, cut, fuel) == acc + ChunksFrom(rem, cut, fuel)
    decreases fuel
  {
    if |rem| == 0 || fuel == 0 {
      assert acc + [] == acc;
    } else {
      var k := cut(rem);
      var chunk, rest := rem[..k], ChunksFrom(rem[k..], cut, fuel - 1);
      CollectChunksAppends(acc + [chunk], rem[k..], cut, fuel - 1);
      assert (acc + [chunk]) + rest == acc + ([chunk] + rest);
    }
  }

  /** Every chunk is non-empty and at most `most` characters long. */
  predicate SizesOk(chunks: seq<string>, most: nat)
  {
    forall i :: 0 <= i < |chunks| ==> 0 < |chunks[i]| <= most
  }

  lemma SizesOkCons(c: string, rest: seq<string>, most: nat)
    requires 0 < |c| <= most && SizesOk(rest, most)
    ensures SizesOk([c] + rest, most)
  {
    var cs := [c] + rest;
    forall i | 0 < i < |cs| ensures 0 < |cs[i]| <= most {
      assert cs[i] == rest[i - 1];
    }
  }

  /** There are at most `fuel` chunks, each non-empty and no longer than a cut can be. */
  lemma {:induction false} ChunksBounds(rem: string, cut: string -> nat, most: nat, fuel: nat)
    requires CutsOk(cut) && CutsAtMost(cut, most)
    ensures |ChunksFrom(rem, cut, fuel)| <= fuel
    ensures SizesOk(ChunksFrom(rem, cut, fuel), most)
    decreases fuel
  {
    if |rem| > 0 && fuel > 0 {
      var k := cut(rem);
      ChunksBounds(rem[k..], cut, most, fuel - 1);
      SizesOkCons(rem[..k], ChunksFrom(rem[k..], cut, fuel - 1), most);
    }
  }

  /** `cs` concatenates to a prefix of `rem` with at least one character per chunk, and to
      all of `rem` when there are fewer than `fuel` of them. */
  ghost predicate CoversPrefix(rem: string, cs: seq<string>, fuel: nat)
  {
    && |cs| <= |Concat(cs)| <= |rem|
    && rem[..|Concat(cs)|] == Concat(cs)
    && (|cs| < fuel ==> Concat(cs) == rem)
  }

  /** Together the chunks are a prefix of the input, at least one character per chunk, and
      all of the input when the safety counter did not run out. */
  lemma {:induction false} ChunksConcat(rem: string, cut: string -> nat, fuel: nat)
    requires CutsOk(cut)
    ensures CoversPrefix(rem, ChunksFrom(rem, cut, fuel), fuel)
    decreases fuel
  {
    if |rem| > 0 && fuel > 0 {
      var k := cut(rem);
      var rest := ChunksFrom(rem[k..], cut, fuel - 1);
      ChunksConcat(rem[k..], cut, fuel - 1);
      CoversPrefixCons(rem, k, rest, fuel);
    }
  }

  /** A first chunk of `k` characters followed by chunks covering the rest. */
  lemma CoversPrefixCons(rem: string, k: nat, rest: seq<string>, fuel: nat)
    requires 1 <= k <= |rem| && fuel >= 1
    requires CoversPrefix(rem[k..], rest, fuel - 1)
    ensures CoversPrefix(rem, [rem[..k]] + rest, fuel)
  {
    var tail := Concat(rest);
    ConsChunk(rem[..k], rest);
    PrefixJoin(rem, k, tail);
  }

  lemma ConsChunk(c: string, rest: seq<string>)
    ensures Concat([c] + rest) == c + Concat(rest)
  {
    assert ([c] + rest)[1..] == rest;
  }

  lemma PrefixJoin(rem: string, k: nat, tail: string)
    requires k <= |rem| && |tail| <= |rem| - k && rem[k..][..|tail|] == tail
    ensures rem[..k + |tail|] == rem[..k] + tail
    ensures |tail| == |rem| - k ==> rem == rem[..k] + tail
  {
    assert rem[..k + |tail|] == rem[..k] + rem[k..][..|tail|];
    if |tail| == |rem| - k {
      assert rem[k..][..|tail|] == rem[k..];
      assert rem == rem[..k] + rem[k..];
    }
  }

  /** One more turn of the safety counter changes nothing when the extra turn would not
      be needed. */
  lemma {:induction false} ChunksSettle(rem: string, cut: string -> nat, fuel: nat)
    requires CutsOk(cut)
    ensures |ChunksFrom(rem, cut, fuel + 1)| <= fuel ==>
              ChunksFrom(rem, cut, fuel) == ChunksFrom(rem, cut, fuel + 1)
    decreases fuel
  {
    if |rem| > 0 && fuel > 0 {
      ChunksSettle(rem[cut(rem)..], cut, fuel - 1);
    }
  }

  /** When one more turn would still produce a chunk, the chunks so far fall short of
      the text. */
  lemma {:induction false} ChunksRunOut(rem: string, cut: string -> nat, fuel: nat)
    requires CutsOk(cut)
    ensures |ChunksFrom(rem, cut, fuel + 1)| > fuel ==> |Concat(ChunksFrom(rem, cut, fuel))| < |rem|
    decreases fuel
  {
    if |rem| > 0 && fuel > 0 {
      var k := cut(rem);
      ChunksRunOut(rem[k..], cut, fuel - 1);
      ConsChunk(rem[..k], ChunksFrom(rem[k..], cut, fuel - 1));
    }
  }

  /** At most `SafetyLimit` chunks, each non-empty and at most two characters longer than
      the target length. */
  lemma ChunkSizes(text: string, maxChars: nat)
    requires maxChars >= 1
    ensures |Chunks(text, maxChars)| <= SafetyLimit
    ensures SizesOk(Chunks(text, maxChars), maxChars + 2)
  {
    CutterOk(maxChars);
    ChunksBounds(text, Cutter(maxChars), maxChars + 2, SafetyLimit);
  }

  /** The chunks reproduce the text exactly when, without the safety counter, the loop
      would stop within `SafetyLimit` chunks; otherwise they are a proper prefix of it. */
  lemma ChunksCoverText(text: string, maxChars: nat)
    requires maxChars >= 1
    ensures var cs := Chunks(text, maxChars);
            && CutsOk(Cutter(maxChars))
            && |Concat(cs)| <= |text| && text[..|Concat(cs)|] == Concat(cs)
            && (Concat(cs) == text <==> |ChunksFrom(text, Cutter(maxChars), SafetyLimit + 1)| <= SafetyLimit)
  {
    var cut := Cutter(maxChars);
    CutterOk(maxChars);
    ChunksConcat(text, cut, SafetyLimit);
    ChunksSettle(text, cut, SafetyLimit);
    ChunksRunOut(text, cut, SafetyLimit);
    ChunksBounds(text, cut, maxChars + 2, SafetyLimit);
    ChunksConcat(text, cut, SafetyLimit + 1);
  }

  /** A text that has no more characters than the safety limit allows chunks is always
      reproduced exactly by its chunks. */
  lemma ChunksCoverShortText(text: string, maxChars: nat)
    requires maxChars >= 1 && |text| <= SafetyLimit
    ensures Concat(Chunks(text, maxChars)) == text
  {
    CutterOk(maxChars);
    ChunksConcat(text, Cutter(maxChars), SafetyLimit);
    ChunksBounds(text, Cutter(maxChars), maxChars + 2, SafetyLimit);
  }

  /** Empty text has no chunk; a non-empty text that fits the target length is one chunk. */
  lemma ChunksOfShortText(text: string, maxChars: nat)
    requires maxChars >= 1 && |text| <= maxChars
    ensures text == "" ==> Chunks(text, maxChars) == []
    ensures text != "" ==> Chunks(text, maxChars) == [text]
  {
    if text != "" {
      CutterOk(maxChars);
      assert Cutter(maxChars)(text) == |text|;
      assert text[..|text|] == text;
      assert text[|text|..] == "";
      assert ChunksFrom(text[|text|..], Cutter(maxChars), SafetyLimit - 1) == [];
    }
  }
}

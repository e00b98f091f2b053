/**
 * The progressive text renderer (`TextSystem`): the full text is cut into chunks, each
 * chunk into segments, and a chunk is revealed one step per timer callback, a tag at once
 * and plain text one character at a time.
 *
 * The renderer's fields (`fullText`, `currentChunkIndex`, `isAnimating`, ...) together with
 * what it writes into the page (`monologueText.innerHTML`, the continue indicator, the
 * choice buttons, the calls of `onComplete` and of the choices' callbacks) are one
 * `RendererState` value, held by the class and replaced field by field. Every operation is
 * a function on that value; the class's methods are the source's imperative code, each
 * proved to compute its function. `Fired` stands for the pending `setTimeout` callback
 * running.
 */
module TextRenderer {
  import opened Markup
  import opened Chunking

  /** The one pending `setTimeout` continuation of the animation, if any. */
  datatype Timer =
    | NoTimer
      /** `setTimeout(() => this._animateParsedChunk(), 0)` */
    | ChunkStep
      /** `setTimeout(() => this._animateTextSegment(segmentText), delay)` */
    | TextStep(segmentText: string, delay: nat)

  /** A choice shown after the text: its button label and whether it has a callback. */
  datatype Choice = Choice(text: string, hasCallback: bool)

  /** The animation settings, in milliseconds and characters. */
  datatype Settings = Settings(typingSpeed: nat, punctuationPause: nat,
                               maxLinesPerChunk: nat, avgCharsPerLine: nat)

  /** The constructor's `options.x || default`: a zero (or absent) option takes the default. */
  function SettingsFrom(typingSpeed: nat, punctuationPause: nat, maxLines: nat, avgChars: nat): Settings
  {
    Settings(if typingSpeed == 0 then 30 else typingSpeed,
             if punctuationPause == 0 then 150 else punctuationPause,
             if maxLines == 0 then 3 else maxLines,
             if avgChars == 0 then 55 else avgChars)
  }

  /** The target chunk length of `_splitIntoChunks`. */
  function MaxChars(o: Settings): nat
  {
    o.avgCharsPerLine * o.maxLinesPerChunk
  }

  /** The delay before the character after `c` is shown. */
  function CharDelay(o: Settings, c: char): nat
  {
    if c == '.' || c == '!' || c == '?' then o.punctuationPause
    else if c == ',' then 2 * o.typingSpeed
    else o.typingSpeed
  }

  /** Whatever the options, the target chunk length is positive, so chunking makes progress. */
  lemma SettingsFromOk(typingSpeed: nat, punctuationPause: nat, maxLines: nat, avgChars: nat)
    ensures MaxChars(SettingsFrom(typingSpeed, punctuationPause, maxLines, avgChars)) >= 1
    ensures MaxChars(SettingsFrom(0, 0, 0, 0)) == 165
  {
    var o := SettingsFrom(typingSpeed, punctuationPause, maxLines, avgChars);
    assert o.avgCharsPerLine * o.maxLinesPerChunk >= 1 * o.maxLinesPerChunk;
  }

  /** Sentence punctuation waits `punctuationPause`, a comma twice the typing speed, any
      other character the typing speed; with the defaults that is 150, 60 and 30 ms. */
  lemma DelayRules(o: Settings, c: char)
    ensures CharDelay(o, '.') == CharDelay(o, '!') == CharDelay(o, '?') == o.punctuationPause
    ensures CharDelay(o, ',') == 2 * o.typingSpeed
    ensures c != '.' && c != '!' && c != '?' && c != ',' ==> CharDelay(o, c) == o.typingSpeed
    ensures var d := SettingsFrom(0, 0, 0, 0);
            CharDelay(d, '!') == 150 && CharDelay(d, ',') == 60 && CharDelay(d, 'a') == 30
  {
  }

  // ---------------------------------------------------------------------------
  // State

  /** The renderer's fields and what it has written into the page. */
  datatype RendererState = RendererState(
    fullText: string,
    currentChunkIndex: nat,
    textChunks: seq<string>,
    parsedChunks: seq<seq<Segment>>,
    isAnimating: bool,
    timer: Timer,
    currentAnimationSegment: nat,
    currentCharIndex: nat,
    showChoices: bool,
    choices: seq<Choice>,
    hasOnComplete: bool,
    /** `monologueText.innerHTML` */
    displayed: string,
    /** the continue indicator is in the box */
    continueShown: bool,
    /** the choices container is displayed, holding buttons labelled `shownChoices` */
    choicesShown: bool,
    shownChoices: seq<string>,
    /** how many times `onComplete` has been called */
    completions: nat,
    /** the indices of the choices whose callbacks have been called, in order */
    choiceCalls: seq<nat>)

  /** The state the constructor sets up. */
  function Initial(): RendererState
  {
    RendererState("", 0, [], [], false, NoTimer, 0, 0, false, [], false, "", false, false, [], 0, [])
  }

  /** The labels of the choice buttons. */
  function Labels(choices: seq<Choice>): seq<string>
  {
    seq(|choices|, i requires 0 <= i < |choices| => choices[i].text)
  }

  /** `textChunks.map(chunk => this._parseText(chunk))` */
  function ParseEach(chunks: seq<string>): seq<seq<Segment>>
  {
    seq(|chunks|, i requires 0 <= i < |chunks| => Parse(chunks[i]))
  }

  /** What is on screen part way through a chunk: the first `seg` segments in full, then the
      first `ch` characters of segment `seg`. */
  function Shown(pc: seq<Segment>, seg: nat, ch: nat): string
    requires seg <= |pc| && (seg < |pc| ==> ch <= |pc[seg].content|)
  {
    Join(pc[..seg]) + (if seg < |pc| then pc[seg].content[..ch] else "")
  }

  lemma ShownNextSegment(pc: seq<Segment>, seg: nat)
    requires seg < |pc|
    ensures Join(pc[..seg + 1]) == Join(pc[..seg]) + pc[seg].content
  {
    assert pc[..seg + 1][..seg] == pc[..seg];
  }

  lemma ShownFull(pc: seq<Segment>)
    ensures Join(pc[..|pc|]) == Join(pc)
  {
    assert pc[..|pc|] == pc;
  }

  /** The contents of the first `k` segments are a prefix of those of the first `n`. */
  lemma {:induction false} JoinPrefix(pc: seq<Segment>, k: nat, n: nat)
    requires k <= n <= |pc|
    ensures Join(pc[..k]) <= Join(pc[..n])
    decreases n
  {
    if k < n {
      JoinPrefix(pc, k, n - 1);
      ShownNextSegment(pc, n - 1);
    }
  }

  /** What is on screen part way through a chunk is a prefix of the whole chunk's contents. */
  lemma ShownPrefix(pc: seq<Segment>, seg: nat, ch: nat)
    requires seg <= |pc| && (seg < |pc| ==> ch <= |pc[seg].content|)
    ensures Shown(pc, seg, ch) <= Join(pc)
  {
    ShownFull(pc);
    if seg < |pc| {
      var c := pc[seg].content;
      assert c[..ch] <= c;
      ShownNextSegment(pc, seg);
      JoinPrefix(pc, seg + 1, |pc|);
    }
  }

  /** Each parsed chunk is its chunk parsed. */
  predicate ParsedAs(chunks: seq<string>, parsed: seq<seq<Segment>>)
  {
    |parsed| == |chunks| && forall i :: 0 <= i < |chunks| ==> parsed[i] == Parse(chunks[i])
  }

  /** The chunks are those of the full text and each parsed chunk is its chunk parsed. */
  ghost predicate Rendered(o: Settings, s: RendererState)
  {
    && MaxChars(o) >= 1
    && s.textChunks == Chunks(s.fullText, MaxChars(o))
    && ParsedAs(s.textChunks, s.parsedChunks)
  }

  /** Two states hold the same text, chunks and settings of the last `setText`. */
  predicate SameText(s: RendererState, t: RendererState)
  {
    && t.fullText == s.fullText && t.textChunks == s.textChunks && t.parsedChunks == s.parsedChunks
    && t.showChoices == s.showChoices && t.choices == s.choices && t.hasOnComplete == s.hasOnComplete
  }

  /** Chunks, parsed chunks and choices agree with each other and with the position. */
  ghost predicate Core(s: RendererState)
  {
    && |s.parsedChunks| == |s.textChunks|
    && s.showChoices == (|s.choices| > 0)
    && s.shownChoices == (if s.choicesShown then Labels(s.choices) else [])
    && (s.currentChunkIndex == 0 || s.currentChunkIndex < |s.textChunks|)
    && (s.choicesShown ==> !s.isAnimating && s.currentChunkIndex + 1 >= |s.textChunks|)
  }

  ghost predicate InChunk(s: RendererState)
  {
    s.currentChunkIndex < |s.parsedChunks|
  }

  /** Part way through the current chunk, with `displayed` its shown prefix. */
  ghost predicate AnimationOk(s: RendererState)
  {
    && InChunk(s)
    && var pc := s.parsedChunks[s.currentChunkIndex];
    && var seg := s.currentAnimationSegment;
    && var ch := s.currentCharIndex;
    && seg <= |pc|
    && (seg == |pc| ==> ch == 0)
    && (seg < |pc| ==> ch <= |pc[seg].content| && (pc[seg].Tag? ==> ch == 0))
    && s.displayed == Shown(pc, seg, ch)
    && !s.continueShown
  }

  /** The pending callback matches the position: a text step continues the current text
      segment, after the delay its last shown character calls for. */
  ghost predicate TimerOk(o: Settings, s: RendererState)
    requires AnimationOk(s)
  {
    var pc := s.parsedChunks[s.currentChunkIndex];
    var seg := s.currentAnimationSegment;
    && (s.timer.ChunkStep? ==> s.currentCharIndex == 0)
    && (s.timer.TextStep? ==>
          && seg < |pc| && pc[seg] == Text(s.timer.segmentText) && s.currentCharIndex >= 1
          && s.timer.delay == CharDelay(o, s.timer.segmentText[s.currentCharIndex - 1]))
  }

  /** The renderer's invariant: exactly while animating is a callback pending, and it
      continues the animation from where the screen shows it to be. */
  ghost predicate Valid(o: Settings, s: RendererState)
  {
    && MaxChars(o) >= 1
    && Core(s)
    && (s.isAnimating <==> s.timer != NoTimer)
    && (s.isAnimating ==> AnimationOk(s) && TimerOk(o, s))
  }

  /** The state in which a callback has just fired (or an animation step is run directly). */
  ghost predicate Poised(o: Settings, s: RendererState)
  {
    && MaxChars(o) >= 1
    && Core(s)
    && s.timer == NoTimer
    && (s.isAnimating ==> AnimationOk(s))
  }

  /** A chunk has been shown in full and its completion handled. */
  ghost predicate Completed(s: RendererState)
  {
    && InChunk(s)
    && !s.isAnimating && s.timer == NoTimer
    && s.currentAnimationSegment == |s.parsedChunks[s.currentChunkIndex]|
    && s.currentCharIndex == 0
    && s.displayed == Join(s.parsedChunks[s.currentChunkIndex])
    && s.continueShown == (s.currentChunkIndex + 1 < |s.textChunks|)
  }

  /** `_showChunk` has just run the first animation step of the current chunk: an empty
      chunk is complete, a leading tag is on screen, or the first character of a leading
      text run is. */
  ghost predicate JustStarted(s: RendererState)
  {
    && InChunk(s)
    && var pc := s.parsedChunks[s.currentChunkIndex];
    && (|pc| == 0 ==> Completed(s))
    && (|pc| > 0 && pc[0].Tag? ==>
          && s.isAnimating && s.currentAnimationSegment == 1 && s.currentCharIndex == 0
          && s.displayed == pc[0].content && s.timer == ChunkStep)
    && (|pc| > 0 && pc[0].Text? && |pc[0].content| > 0 ==>
          && s.isAnimating && s.currentAnimationSegment == 0 && s.currentCharIndex == 1
          && s.displayed == [pc[0].content[0]] && s.timer.TextStep?)
  }

  /** How many `onComplete` calls finishing the current chunk makes. */
  function CompletionCalls(s: RendererState): nat
  {
    if s.currentChunkIndex + 1 >= |s.textChunks| && !s.showChoices && s.hasOnComplete then 1 else 0
  }

  // ---------------------------------------------------------------------------
  // The operations, as functions of the state

  /** `_onChunkAnimationComplete`: a continue indicator when more chunks follow, else the
      choice buttons when there are choices, else a call of `onComplete` if there is one. */
  function ChunkCompleted(s: RendererState): RendererState
  {
    if s.currentChunkIndex + 1 < |s.textChunks| then s.(continueShown := true)
    else if s.showChoices then s.(continueShown := false, choicesShown := true, shownChoices := Labels(s.choices))
    else if s.hasOnComplete then s.(continueShown := false, completions := s.completions + 1)
    else s.(continueShown := false)
  }

  /** `_animateTextSegment(t)`: show the next character of `t` and schedule the next one,
      or schedule the next segment once `t` is all shown. */
  function TextSegmentStep(o: Settings, s: RendererState, t: string): RendererState
  {
    if !s.isAnimating then s
    else if s.currentCharIndex < |t| then
      var c := t[s.currentCharIndex];
      s.(displayed := s.displayed + [c], currentCharIndex := s.currentCharIndex + 1,
         timer := TextStep(t, CharDelay(o, c)))
    else
      s.(currentAnimationSegment := s.currentAnimationSegment + 1, currentCharIndex := 0,
         timer := ChunkStep)
  }

  /** `_animateParsedChunk`: finish the chunk, or append the next tag whole, or start the
      next text segment. */
  function ParsedChunkStep(o: Settings, s: RendererState): RendererState
    requires s.isAnimating ==> InChunk(s)
  {
    if !s.isAnimating then s
    else
      var pc := s.parsedChunks[s.currentChunkIndex];
      if s.currentAnimationSegment >= |pc| then ChunkCompleted(s.(isAnimating := false))
      else match pc[s.currentAnimationSegment]
        case Tag(c) =>
          s.(displayed := s.displayed + c,
             currentAnimationSegment := s.currentAnimationSegment + 1, timer := ChunkStep)
        case Text(c) => TextSegmentStep(o, s, c)
  }

  /** The pending callback runs. */
  function Fired(o: Settings, s: RendererState): RendererState
    requires s.isAnimating ==> InChunk(s)
  {
    match s.timer
    case NoTimer => s
    case ChunkStep => ParsedChunkStep(o, s.(timer := NoTimer))
    case TextStep(t, _) => TextSegmentStep(o, s.(timer := NoTimer), t)
  }

  /** `_showChunk(i)`: start animating chunk `i`, if there is one. */
  function ChunkShown(o: Settings, s: RendererState, i: nat): RendererState
  {
    if i >= |s.parsedChunks| then s
    else ParsedChunkStep(o, Restarted(s, i))
  }

  /** The fields `_showChunk(i)` resets before its first animation step. */
  function Restarted(s: RendererState, i: nat): RendererState
  {
    s.(currentChunkIndex := i, currentAnimationSegment := 0, currentCharIndex := 0,
       displayed := "", continueShown := false, isAnimating := true)
  }

  /** `_skipAnimation`: show the rest of the current chunk at once and handle its completion. */
  function Skipped(s: RendererState): RendererState
    requires s.isAnimating ==> InChunk(s)
  {
    if !s.isAnimating then s
    else
      var pc := s.parsedChunks[s.currentChunkIndex];
      ChunkCompleted(s.(timer := NoTimer, displayed := Join(pc), isAnimating := false,
                        currentAnimationSegment := |pc|, currentCharIndex := 0))
  }

  /** `showNextChunk`: skip a running animation, then move to the next chunk if there is one. */
  function NextChunkShown(o: Settings, s: RendererState): RendererState
    requires s.isAnimating ==> InChunk(s)
  {
    NextIfIdle(o, Skipped(s))
  }

  /** The second half of `showNextChunk`: when idle and not on the last chunk, show the next one. */
  function NextIfIdle(o: Settings, s: RendererState): RendererState
  {
    if !s.isAnimating && s.currentChunkIndex + 1 < |s.textChunks| then ChunkShown(o, s, s.currentChunkIndex + 1)
    else s
  }

  /** The click handler of the text box. A click on a choice button or a link inside the
      text is ignored; otherwise a running animation is skipped, else the next chunk is
      shown, else `onComplete` is called when there are no choices. */
  function BoxClicked(o: Settings, s: RendererState, onChoiceOrLink: bool): RendererState
    requires s.isAnimating ==> InChunk(s)
  {
    if onChoiceOrLink then s
    else if s.isAnimating then Skipped(s)
    else if s.currentChunkIndex + 1 < |s.textChunks| then NextChunkShown(o, s)
    else if !s.showChoices && s.hasOnComplete then s.(completions := s.completions + 1)
    else s
  }

  /** The click handler of choice button `i`: its choice's callback, if it has one. */
  function ChoiceClicked(s: RendererState, i: nat): RendererState
    requires i < |s.choices|
  {
    if s.choices[i].hasCallback then s.(choiceCalls := s.choiceCalls + [i]) else s
  }

  /** The part of `setText` before `_showChunk(0)`: cancel the pending callback, store the
      text and its settings, chunk and parse it, hide the choices and the continue indicator. */
  function Loaded(o: Settings, s: RendererState, text: string, choices: seq<Choice>, onComplete: bool): RendererState
    requires MaxChars(o) >= 1
  {
    var chunks := Chunks(text, MaxChars(o));
    s.(timer := NoTimer, fullText := text, choices := choices, showChoices := |choices| > 0,
       hasOnComplete := onComplete, currentChunkIndex := 0, currentAnimationSegment := 0,
       currentCharIndex := 0, textChunks := chunks, parsedChunks := ParseEach(chunks),
       choicesShown := false, shownChoices := [], continueShown := false)
  }

  /** `setText(text, choices, onComplete)` as the source has it: `isAnimating` is left as it was. */
  function TextSetAsWritten(o: Settings, s: RendererState, text: string, choices: seq<Choice>, onComplete: bool): RendererState
    requires MaxChars(o) >= 1
  {
    ChunkShown(o, Loaded(o, s, text, choices, onComplete), 0)
  }

  /** `setText`, also clearing `isAnimating` along with the pending callback. */
  function TextSet(o: Settings, s: RendererState, text: string, choices: seq<Choice>, onComplete: bool): RendererState
    requires MaxChars(o) >= 1
  {
    ChunkShown(o, Loaded(o, s.(isAnimating := false), text, choices, onComplete), 0)
  }

  // ---------------------------------------------------------------------------
  // What the operations keep and achieve

  /** Completing a chunk does exactly one of: show the continue indicator (more chunks
      follow), show the choice buttons (last chunk, with choices), or count an `onComplete`
      call (last chunk, no choices, a callback given). Nothing else changes. */
  lemma ChunkCompletedOutcome(s: RendererState)
    requires Core(s) && !s.isAnimating
    ensures var r := ChunkCompleted(s);
            && Core(r) && SameText(s, r)
            && r.continueShown == (s.currentChunkIndex + 1 < |s.textChunks|)
            && r.choicesShown == (s.choicesShown || (s.currentChunkIndex + 1 >= |s.textChunks| && s.showChoices))
            && r.completions == s.completions + CompletionCalls(s)
            && r == s.(continueShown := r.continueShown, choicesShown := r.choicesShown,
                       shownChoices := r.shownChoices, completions := r.completions)
  {
  }

  lemma TextSegmentStepValid(o: Settings, s: RendererState, t: string)
    requires Poised(o, s)
    requires s.isAnimating ==>
               && s.currentAnimationSegment < |s.parsedChunks[s.currentChunkIndex]|
               && s.parsedChunks[s.currentChunkIndex][s.currentAnimationSegment] == Text(t)
    ensures Valid(o, TextSegmentStep(o, s, t)) && SameText(s, TextSegmentStep(o, s, t))
  {
    if s.isAnimating {
      var pc := s.parsedChunks[s.currentChunkIndex];
      var seg, ch := s.currentAnimationSegment, s.currentCharIndex;
      if ch < |t| {
        assert t[..ch + 1] == t[..ch] + [t[ch]];
      } else {
        ShownNextSegment(pc, seg);
        assert t[..ch] == t;
      }
    }
  }

  lemma ParsedChunkStepValid(o: Settings, s: RendererState)
    requires Poised(o, s) && (s.isAnimating ==> s.currentCharIndex == 0)
    ensures Valid(o, ParsedChunkStep(o, s)) && SameText(s, ParsedChunkStep(o, s))
    ensures s.isAnimating && s.currentAnimationSegment >= |s.parsedChunks[s.currentChunkIndex]| ==>
              Completed(ParsedChunkStep(o, s))
  {
    if s.isAnimating {
      var pc := s.parsedChunks[s.currentChunkIndex];
      var seg := s.currentAnimationSegment;
      if seg >= |pc| {
        ShownFull(pc);
        ChunkCompletedOutcome(s.(isAnimating := false));
      } else {
        match pc[seg]
        case Tag(c) =>
          ShownNextSegment(pc, seg);
        case Text(c) =>
          TextSegmentStepValid(o, s, c);
      }
    }
  }

  /** A timer callback keeps the invariant and leaves the text alone. */
  lemma FiredValid(o: Settings, s: RendererState)
    requires Valid(o, s)
    ensures Valid(o, Fired(o, s)) && SameText(s, Fired(o, s))
  {
    match s.timer
    case NoTimer =>
    case ChunkStep =>
      ParsedChunkStepValid(o, s.(timer := NoTimer));
    case TextStep(t, _) =>
      TextSegmentStepValid(o, s.(timer := NoTimer), t);
  }

  /** What the first animation step of a non-empty chunk writes. */
  lemma FirstStepShows(o: Settings, t: RendererState)
    requires t.isAnimating && InChunk(t) && t.currentAnimationSegment == 0 && t.currentCharIndex == 0
    requires |t.parsedChunks[t.currentChunkIndex]| > 0
    ensures var pc := t.parsedChunks[t.currentChunkIndex];
            && (pc[0].Tag? ==>
                  ParsedChunkStep(o, t) ==
                  t.(displayed := t.displayed + pc[0].content, currentAnimationSegment := 1, timer := ChunkStep))
            && (pc[0].Text? && |pc[0].content| > 0 ==>
                  ParsedChunkStep(o, t) ==
                  t.(displayed := t.displayed + [pc[0].content[0]], currentCharIndex := 1,
                     timer := TextStep(pc[0].content, CharDelay(o, pc[0].content[0]))))
  {
  }

  /** The first animation step of a chunk, from an empty box. */
  lemma FirstStep(o: Settings, t: RendererState)
    requires Poised(o, t) && t.isAnimating && t.displayed == ""
    requires t.currentAnimationSegment == 0 && t.currentCharIndex == 0
    ensures var r := ParsedChunkStep(o, t);
            Valid(o, r) && SameText(t, r) && r.currentChunkIndex == t.currentChunkIndex && JustStarted(r)
  {
    var pc := t.parsedChunks[t.currentChunkIndex];
    ParsedChunkStepValid(o, t);
    if |pc| > 0 {
      FirstStepShows(o, t);
    }
  }

  /** `_showChunk(i)` on an existing chunk runs its first animation step. */
  lemma ChunkShownStarts(o: Settings, s: RendererState, i: nat)
    requires MaxChars(o) >= 1 && Core(s) && s.timer == NoTimer && !s.choicesShown
    requires i < |s.parsedChunks|
    ensures var r := ChunkShown(o, s, i);
            Valid(o, r) && SameText(s, r) && r.currentChunkIndex == i && JustStarted(r)
  {
    var t := Restarted(s, i);
    assert t.parsedChunks[i][..0] == [];
    assert Poised(o, t);
    FirstStep(o, t);
  }

  /** Skipping a running animation completes the chunk: the whole chunk is displayed, and
      the choice buttons or the `onComplete` call follow exactly as when the animation
      finishes by itself. */
  lemma SkippedCompletes(o: Settings, s: RendererState)
    requires Valid(o, s) && s.isAnimating
    ensures Valid(o, Skipped(s)) && Completed(Skipped(s)) && SameText(s, Skipped(s))
    ensures Skipped(s).currentChunkIndex == s.currentChunkIndex
    ensures var r := Skipped(s);
            && r.choicesShown == (s.choicesShown || (s.currentChunkIndex + 1 >= |s.textChunks| && s.showChoices))
            && r.shownChoices == (if r.choicesShown then Labels(s.choices) else [])
            && r.completions == s.completions + CompletionCalls(s)
  {
    var pc := s.parsedChunks[s.currentChunkIndex];
    ChunkCompletedOutcome(s.(timer := NoTimer, displayed := Join(pc), isAnimating := false,
                             currentAnimationSegment := |pc|, currentCharIndex := 0));
  }

  /** The number of callbacks from the start of segment `seg` to the end of the chunk: one
      per tag, one per character of a text run plus one to leave it, and one to finish. */
  function TicksFrom(pc: seq<Segment>, seg: nat): nat
    decreases |pc| - seg
  {
    if seg >= |pc| then 1
    else (match pc[seg] case Tag(_) => 1 case Text(t) => |t| + 1) + TicksFrom(pc, seg + 1)
  }

  /** The number of callbacks left before the animation finishes by itself. */
  ghost function Remaining(s: RendererState): nat
    requires AnimationOk(s)
  {
    var pc := s.parsedChunks[s.currentChunkIndex];
    var seg := s.currentAnimationSegment;
    if seg < |pc| && s.timer.TextStep? then
      assert pc[seg].Text? ==> TicksFrom(pc, seg) == |pc[seg].content| + 1 + TicksFrom(pc, seg + 1);
      TicksFrom(pc, seg) - s.currentCharIndex
    else TicksFrom(pc, seg)
  }

  /** Each callback brings the natural end of the animation one step closer. */
  lemma FiredProgress(o: Settings, s: RendererState)
    requires Valid(o, s) && s.isAnimating
    ensures Valid(o, Fired(o, s))
    ensures Fired(o, s).isAnimating ==> Remaining(Fired(o, s)) < Remaining(s)
  {
    FiredValid(o, s);
  }

  /** The state the animation reaches once every pending callback has run. */
  ghost function RunToEnd(o: Settings, s: RendererState): RendererState
    requires Valid(o, s)
    decreases if s.isAnimating then Remaining(s) else 0
  {
    if !s.isAnimating then s
    else
      FiredProgress(o, s);
      RunToEnd(o, Fired(o, s))
  }

  /** One callback changes nothing a skip does not overwrite; the last one leaves exactly
      the state a skip leaves. */
  lemma SkipAfterTick(o: Settings, s: RendererState)
    requires Valid(o, s) && s.isAnimating
    ensures Fired(o, s).isAnimating ==> Skipped(Fired(o, s)) == Skipped(s)
    ensures !Fired(o, s).isAnimating ==> Fired(o, s) == Skipped(s)
  {
    FiredValid(o, s);
    var pc := s.parsedChunks[s.currentChunkIndex];
    if s.timer.ChunkStep? && s.currentAnimationSegment >= |pc| {
      ShownFull(pc);
    }
  }

  /** `_skipAnimation` leaves the renderer in exactly the state the animation would have
      reached by running to its end. */
  lemma {:induction false} SkipIsRunToEnd(o: Settings, s: RendererState)
    requires Valid(o, s)
    ensures RunToEnd(o, s) == Skipped(s)
    decreases if s.isAnimating then Remaining(s) else 0
  {
    if s.isAnimating {
      FiredProgress(o, s);
      SkipAfterTick(o, s);
      SkipIsRunToEnd(o, Fired(o, s));
    }
  }

  /** Skipping leaves the renderer idle on the same chunk, with the invariant kept. */
  lemma SkippedIdle(o: Settings, s: RendererState)
    requires Valid(o, s)
    ensures var r := Skipped(s);
            Valid(o, r) && !r.isAnimating && SameText(s, r) && r.currentChunkIndex == s.currentChunkIndex
  {
    if s.isAnimating {
      SkippedCompletes(o, s);
    }
  }

  lemma NextIfIdleShows(o: Settings, t: RendererState)
    requires !t.isAnimating && t.currentChunkIndex + 1 < |t.textChunks|
    ensures NextIfIdle(o, t) == ChunkShown(o, t, t.currentChunkIndex + 1)
  {
  }

  /** From an idle renderer, moving on starts the next chunk. */
  lemma IdleNextChunk(o: Settings, t: RendererState)
    requires Valid(o, t) && !t.isAnimating && t.currentChunkIndex + 1 < |t.textChunks|
    ensures var r := NextIfIdle(o, t);
            && Valid(o, r) && SameText(t, r)
            && r.currentChunkIndex == t.currentChunkIndex + 1 && JustStarted(r)
  {
    ChunkShownStarts(o, t, t.currentChunkIndex + 1);
    NextIfIdleShows(o, t);
  }

  /** `showNextChunk` keeps the invariant: it starts the next chunk when there is one, and
      otherwise only completes the current one. */
  lemma NextChunkValid(o: Settings, s: RendererState)
    requires Valid(o, s)
    ensures var r := NextChunkShown(o, s);
            && Valid(o, r) && SameText(s, r)
            && (s.currentChunkIndex + 1 < |s.textChunks| ==>
                  r.currentChunkIndex == s.currentChunkIndex + 1 && JustStarted(r))
            && (s.currentChunkIndex + 1 >= |s.textChunks| ==> r == Skipped(s))
  {
    SkippedIdle(o, s);
    var s' := Skipped(s);
    if s.currentChunkIndex + 1 < |s.textChunks| {
      IdleNextChunk(o, s');
    }
  }

  /** A click on the text box keeps the invariant and does what its handler says. */
  lemma BoxClickedValid(o: Settings, s: RendererState, onChoiceOrLink: bool)
    requires Valid(o, s)
    ensures var r := BoxClicked(o, s, onChoiceOrLink);
            && Valid(o, r) && SameText(s, r)
            && (onChoiceOrLink ==> r == s)
            && (!onChoiceOrLink && s.isAnimating ==>
                  r.currentChunkIndex == s.currentChunkIndex && Completed(r))
            && (!onChoiceOrLink && !s.isAnimating && s.currentChunkIndex + 1 < |s.textChunks| ==>
                  r.currentChunkIndex == s.currentChunkIndex + 1 && JustStarted(r))
            && (!onChoiceOrLink && !s.isAnimating && s.currentChunkIndex + 1 >= |s.textChunks| ==>
                  r == s.(completions := s.completions + (if !s.showChoices && s.hasOnComplete then 1 else 0)))
  {
    if !onChoiceOrLink {
      if s.isAnimating {
        SkippedCompletes(o, s);
      } else if s.currentChunkIndex + 1 < |s.textChunks| {
        NextChunkValid(o, s);
      }
    }
  }

  /** A choice button calls its own choice's callback and changes nothing else. */
  lemma ChoiceClickedValid(o: Settings, s: RendererState, i: nat)
    requires Valid(o, s) && s.choicesShown && i < |s.shownChoices|
    ensures i < |s.choices|
    ensures var r := ChoiceClicked(s, i);
            && Valid(o, r)
            && r.choiceCalls == s.choiceCalls + (if s.choices[i].hasCallback then [i] else [])
            && r == s.(choiceCalls := r.choiceCalls)
  {
  }

  /** Empty text has no chunks, and any other text has at least one. */
  lemma ChunksEmptyIff(text: string, maxChars: nat)
    requires maxChars >= 1
    ensures Chunks(text, maxChars) == [] <==> text == ""
  {
  }

  /** `setText`, from any state, establishes the invariant: the new text is chunked and
      parsed, and its first chunk has started; empty text leaves the box as it was. */
  lemma TextSetValid(o: Settings, s: RendererState, text: string, choices: seq<Choice>, onComplete: bool)
    requires MaxChars(o) >= 1
    ensures var r := TextSet(o, s, text, choices, onComplete);
            && Valid(o, r) && Rendered(o, r)
            && r.fullText == text && r.choices == choices && r.hasOnComplete == onComplete
            && r.currentChunkIndex == 0 && r.choiceCalls == s.choiceCalls
            && (text == "" ==>
                  && |r.textChunks| == 0 && !r.isAnimating && !r.continueShown
                  && r.displayed == s.displayed && r.completions == s.completions
                  && !r.choicesShown && r.shownChoices == [])
            && (text != "" ==> |r.textChunks| > 0 && JustStarted(r))
  {
    var s' := Loaded(o, s.(isAnimating := false), text, choices, onComplete);
    ChunksEmptyIff(text, MaxChars(o));
    if text != "" {
      ChunkShownStarts(o, s', 0);
    }
  }

  /** The source's `setText` agrees with the corrected one except when it is given empty
      text while a chunk is still animating. */
  lemma TextSetAsWrittenAgrees(o: Settings, s: RendererState, text: string, choices: seq<Choice>, onComplete: bool)
    requires MaxChars(o) >= 1
    ensures TextSetAsWritten(o, s, text, choices, onComplete) == TextSet(o, s, text, choices, onComplete)
            <==> text != "" || !s.isAnimating
  {
    ChunksEmptyIff(text, MaxChars(o));
  }

  /** Concretely: after `setText("Hi")` the first character is on screen and the animation
      runs; the source's `setText("")` then leaves the renderer animating with no chunk at
      all and no pending callback, so the next click's `_skipAnimation` reads
      `parsedChunks[0]` of an empty list. */
  lemma AsWrittenLeavesStaleAnimation()
    ensures var o := SettingsFrom(0, 0, 0, 0);
            var s1 := TextSet(o, Initial(), "Hi", [], false);
            var s2 := TextSetAsWritten(o, s1, "", [], false);
            && Valid(o, s1) && s1.isAnimating && s1.displayed == "H"
            && s2.isAnimating && s2.timer == NoTimer && !InChunk(s2) && !Valid(o, s2)
  {
    var o := SettingsFrom(0, 0, 0, 0);
    SettingsFromOk(0, 0, 0, 0);
    ChunksOfShortText("Hi", MaxChars(o));
    assert ScanTo("Hi", 1) == Scan([], "H", "", false);
    assert ScanTo("Hi", 2) == Scan([], "Hi", "", false);
    assert Parse("Hi") == [Text("Hi")];
    TextSetValid(o, Initial(), "Hi", [], false);
    ChunksOfShortText("", MaxChars(o));
  }

  /** Once a chunk is complete, by animation or by a skip, the box holds exactly the chunk's
      text, unless the chunk ends inside an unterminated tag, which is then dropped. */
  lemma CompletedShowsChunk(o: Settings, s: RendererState)
    requires Rendered(o, s) && Completed(s)
    ensures var chunk := s.textChunks[s.currentChunkIndex];
            !IsInTag(chunk, |chunk|) ==> s.displayed == chunk
    ensures var chunk := s.textChunks[s.currentChunkIndex];
            IsInTag(chunk, |chunk|) ==>
              |s.displayed| < |chunk| && chunk[..|s.displayed|] == s.displayed && chunk[|s.displayed|] == '<'
  {
    ParseJoin(s.textChunks[s.currentChunkIndex]);
  }

  /** While a chunk animates, what is on screen is always a prefix of the chunk's text. */
  lemma AnimationShowsPrefix(o: Settings, s: RendererState)
    requires Rendered(o, s) && Valid(o, s) && s.isAnimating
    ensures s.displayed <= s.textChunks[s.currentChunkIndex]
  {
    var chunk := s.textChunks[s.currentChunkIndex];
    var pc := s.parsedChunks[s.currentChunkIndex];
    ShownPrefix(pc, s.currentAnimationSegment, s.currentCharIndex);
    ParseJoin(chunk);
    assert Join(pc) <= chunk;
  }

  /** `_splitIntoChunks`: push one chunk per iteration until the text is used up or the
      safety counter runs out. */
  method SplitIntoChunks(text: string, maxChars: nat) returns (chunks: seq<string>)
    requires maxChars >= 1
    ensures chunks == Chunks(text, maxChars)
  {
    CutterOk(maxChars);
    chunks := [];
    var remainingText := text;
    var safety := SafetyLimit;
    while |remainingText| > 0 && safety > 0
      invariant CollectChunks(chunks, remainingText, Cutter(maxChars), safety)
                == CollectChunks([], text, Cutter(maxChars), SafetyLimit)
      decreases safety
    {
      var splitIndex := FindSplitIndex(remainingText, maxChars);
      assert Cutter(maxChars)(remainingText) == splitIndex;
      var nextChunks, nextText, nextSafety := chunks + [remainingText[..splitIndex]], remainingText[splitIndex..], safety - 1;
      CollectChunksStep(chunks, remainingText, Cutter(maxChars), safety, nextChunks, nextText, nextSafety);
      chunks, remainingText, safety := nextChunks, nextText, nextSafety;
    }
    CollectChunksAppends([], text, Cutter(maxChars), SafetyLimit);
    assert [] + Chunks(text, maxChars) == Chunks(text, maxChars);
  }

  /** `textChunks.map(chunk => this._parseText(chunk))` */
  method ParseChunks(chunks: seq<string>) returns (parsed: seq<seq<Segment>>)
    ensures ParsedAs(chunks, parsed) && parsed == ParseEach(chunks)
  {
    parsed := [];
    for i := 0 to |chunks|
      invariant |parsed| == i
      invariant forall j :: 0 <= j < i ==> parsed[j] == Parse(chunks[j])
    {
      var segments := ParseText(chunks[i]);
      parsed := parsed + [segments];
    }
  }

  // ---------------------------------------------------------------------------
  // The renderer

  class TextSystem {
    const settings: Settings
    var state: RendererState

    constructor (typingSpeedOption: nat, punctuationPauseOption: nat,
                 maxLinesOption: nat, avgCharsOption: nat)
      ensures settings == SettingsFrom(typingSpeedOption, punctuationPauseOption, maxLinesOption, avgCharsOption)
      ensures state == Initial()
      ensures Valid(settings, state) && Rendered(settings, state)
    {
      settings := SettingsFrom(typingSpeedOption, punctuationPauseOption, maxLinesOption, avgCharsOption);
      state := Initial();
      new;
      SettingsFromOk(typingSpeedOption, punctuationPauseOption, maxLinesOption, avgCharsOption);
    }

    /** `_clearAnimation`: cancel the pending callback. */
    method ClearAnimation()
      modifies this
      ensures state == old(state).(timer := NoTimer)
    {
      state := state.(timer := NoTimer);
    }

    /** `_displayChoices`: one button per choice, labelled with its text, then show them. */
    method DisplayChoices()
      modifies this
      ensures state == old(state).(continueShown := false, choicesShown := true,
                                   shownChoices := Labels(old(state).choices))
    {
      var choices := state.choices;
      var buttons := [];
      for i := 0 to |choices|
        invariant state == old(state)
        invariant |buttons| == i
        invariant forall j :: 0 <= j < i ==> buttons[j] == choices[j].text
      {
        buttons := buttons + [choices[i].text];
      }
      assert buttons == Labels(choices);
      state := state.(continueShown := false, shownChoices := buttons, choicesShown := true);
    }

    /** `_onChunkAnimationComplete`. */
    method OnChunkAnimationComplete()
      modifies this
      ensures state == ChunkCompleted(old(state))
    {
      state := state.(continueShown := false);
      if state.currentChunkIndex + 1 < |state.textChunks| {
        state := state.(continueShown := true);
      } else if state.showChoices {
        DisplayChoices();
      } else if state.hasOnComplete {
        state := state.(completions := state.completions + 1);
      }
    }

    /** `_animateTextSegment(textContent)`. */
    method AnimateTextSegment(textContent: string)
      modifies this
      ensures state == TextSegmentStep(settings, old(state), textContent)
    {
      if !state.isAnimating {
        return;
      }
      if state.currentCharIndex < |textContent| {
        var c := textContent[state.currentCharIndex];
        var delay := settings.typingSpeed;
        if c == '.' || c == '!' || c == '?' {
          delay := settings.punctuationPause;
        } else if c == ',' {
          delay := settings.typingSpeed * 2;
        }
        state := state.(displayed := state.displayed + [c],
                        currentCharIndex := state.currentCharIndex + 1,
                        timer := TextStep(textContent, delay));
      } else {
        state := state.(currentAnimationSegment := state.currentAnimationSegment + 1,
                        currentCharIndex := 0, timer := ChunkStep);
      }
    }

    /** `_animateParsedChunk`. */
    method AnimateParsedChunk()
      requires state.isAnimating ==> InChunk(state)
      modifies this
      ensures state == ParsedChunkStep(settings, old(state))
    {
      if !state.isAnimating {
        return;
      }
      var parsedChunk := state.parsedChunks[state.currentChunkIndex];
      if state.currentAnimationSegment >= |parsedChunk| {
        state := state.(isAnimating := false);
        OnChunkAnimationComplete();
        return;
      }
      var segment := parsedChunk[state.currentAnimationSegment];
      match segment
      case Tag(content) =>
        state := state.(displayed := state.displayed + content,
                        currentAnimationSegment := state.currentAnimationSegment + 1,
                        timer := ChunkStep);
      case Text(content) =>
        AnimateTextSegment(content);
    }

    /** The pending `setTimeout` callback fires. */
    method Tick()
      requires Valid(settings, state)
      modifies this
      ensures state == Fired(settings, old(state)) && Valid(settings, state)
    {
      FiredValid(settings, state);
      match state.timer
      case NoTimer =>
      case ChunkStep =>
        state := state.(timer := NoTimer);
        AnimateParsedChunk();
      case TextStep(segmentText, _) =>
        state := state.(timer := NoTimer);
        AnimateTextSegment(segmentText);
    }

    /** `_showChunk(chunkIndex)`. */
    method ShowChunk(chunkIndex: nat)
      modifies this
      ensures state == ChunkShown(settings, old(state), chunkIndex)
    {
      if chunkIndex >= |state.parsedChunks| {
        return;
      }
      state := state.(currentChunkIndex := chunkIndex, currentAnimationSegment := 0,
                      currentCharIndex := 0, displayed := "", continueShown := false);
      state := state.(isAnimating := true);
      AnimateParsedChunk();
    }

    /** `_skipAnimation`. */
    method SkipAnimation()
      requires state.isAnimating ==> InChunk(state)
      modifies this
      ensures state == Skipped(old(state))
    {
      if !state.isAnimating {
        return;
      }
      ClearAnimation();
      var parsedChunk := state.parsedChunks[state.currentChunkIndex];
      var fullChunkHTML := Join(parsedChunk);
      state := state.(displayed := fullChunkHTML, isAnimating := false,
                      currentAnimationSegment := |parsedChunk|, currentCharIndex := 0);
      OnChunkAnimationComplete();
    }

    /** `showNextChunk`. */
    method ShowNextChunk()
      requires Valid(settings, state)
      modifies this
      ensures state == NextChunkShown(settings, old(state)) && Valid(settings, state)
    {
      NextChunkValid(settings, state);
      if state.isAnimating {
        SkipAnimation();
      }
      if !state.isAnimating && state.currentChunkIndex + 1 < |state.textChunks| {
        ShowChunk(state.currentChunkIndex + 1);
      }
    }

    /** The click handler installed by `_initEvents`. */
    method Click(onChoiceOrLink: bool)
      requires Valid(settings, state)
      modifies this
      ensures state == BoxClicked(settings, old(state), onChoiceOrLink) && Valid(settings, state)
    {
      BoxClickedValid(settings, state, onChoiceOrLink);
      if onChoiceOrLink {
        return;
      }
      if state.isAnimating {
        SkipAnimation();
      } else if state.currentChunkIndex + 1 < |state.textChunks| {
        ShowNextChunk();
      } else if !state.showChoices && state.hasOnComplete {
        state := state.(completions := state.completions + 1);
      }
    }

    /** The click handler of choice button `i`. */
    method ClickChoice(i: nat)
      requires Valid(settings, state) && state.choicesShown && i < |state.shownChoices|
      modifies this
      ensures i < |old(state).choices| && state == ChoiceClicked(old(state), i)
      ensures Valid(settings, state)
    {
      ChoiceClickedValid(settings, state, i);
      if state.choices[i].hasCallback {
        state := state.(choiceCalls := state.choiceCalls + [i]);
      }
    }

    /** The part of `setText` both versions share, up to `_showChunk(0)`. */
    method LoadText(text: string, newChoices: seq<Choice>, onComplete: bool)
      requires MaxChars(settings) >= 1
      modifies this
      ensures state == Loaded(settings, old(state), text, newChoices, onComplete)
    {
      ClearAnimation();
      state := state.(fullText := text, choices := newChoices, showChoices := |newChoices| > 0,
                      hasOnComplete := onComplete, currentChunkIndex := 0,
                      currentAnimationSegment := 0, currentCharIndex := 0);
      var textChunks := SplitIntoChunks(text, MaxChars(settings));
      state := state.(textChunks := textChunks);
      var parsedChunks := ParseChunks(textChunks);
      state := state.(parsedChunks := parsedChunks);
      state := state.(choicesShown := false, shownChoices := [], continueShown := false);
    }

    /** `setText(text, choices, onComplete)`, also clearing `isAnimating`. */
    method SetText(text: string, newChoices: seq<Choice>, onComplete: bool)
      requires MaxChars(settings) >= 1
      modifies this
      ensures state == TextSet(settings, old(state), text, newChoices, onComplete)
      ensures Valid(settings, state) && Rendered(settings, state)
    {
      TextSetValid(settings, state, text, newChoices, onComplete);
      state := state.(isAnimating := false);
      LoadText(text, newChoices, onComplete);
      ShowChunk(0);
    }

    /** `setText` exactly as the source has it. */
    method SetTextAsWritten(text: string, newChoices: seq<Choice>, onComplete: bool)
      requires MaxChars(settings) >= 1
      modifies this
      ensures state == TextSetAsWritten(settings, old(state), text, newChoices, onComplete)
    {
      LoadText(text, newChoices, onComplete);
      ShowChunk(0);
    }
  }
}

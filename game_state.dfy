/**
 * The data the narrative engine works on: the authored content tables (read-only at run
 * time) and the player's state record, with the default state a new game starts from.
 */
module GameState {
  import opened Wrappers

  /** The node types the engine distinguishes. */
  datatype NodeType = Monologue | MessageReceived | MessageChoices | PuzzleNode | KeywordInfo

  /** The two views of the interface. */
  datatype View = MonologueView | MessageView

  /** One entry of an effects object, in the object's insertion order. */
  datatype Effect =
    | SelfDoubt(delta: int)
    | AlexRelationship(delta: int)
      /** an id into the echo-message table */
    | ReceivedEchoes(echoId: string)
    | KnownKeywords(keywordId: string)
      /** any other key: ignored */
    | Unrecognised(key: string)

  /** `onSolve` / `onFail` of a puzzle node, and the shape of a choice. */
  datatype Transition = Transition(effects: Option<seq<Effect>>, nextNodeId: Option<string>)

  /** A choice offered to the player: its effects and the node it leads to. */
  datatype Choice = Choice(effects: Option<seq<Effect>>, nextNodeId: string)

  /** The fields of a node the engine reads. */
  datatype Node = Node(
    nodeType: NodeType,
    environment: Option<string>,
    puzzleId: Option<string>,
    onSolve: Option<Transition>,
    onFail: Option<Transition>)

  datatype Keyword = Keyword(unlockedNodes: seq<string>)

  datatype Puzzle = Puzzle(solution: string)

  datatype EchoMessage = EchoMessage(sender: string, content: string)

  /** The authored tables, keyed by id. */
  datatype Content = Content(
    nodes: map<string, Node>,
    keywords: map<string, Keyword>,
    puzzles: map<string, Puzzle>,
    echoMessages: map<string, EchoMessage>)

  /** A received echo (and a message-history record). */
  datatype Echo = Echo(sender: string, content: string, timestamp: string, read: bool)

  /** The player's state record. */
  datatype PlayerState = PlayerState(
    currentNodeId: string,
    visitedNodes: seq<string>,
    activeView: View,
    knownKeywords: seq<string>,
    collectedClues: map<string, seq<string>>,
    solvedPuzzles: seq<string>,
    currentLocation: string,
    worldTime: string,
    dayCount: int,
    alexRelationship: int,
    selfDoubt: int,
    unreadMessages: map<string, int>,
    receivedEchoes: seq<Echo>,
    messageHistory: map<string, seq<Echo>>)

  /** The `defaultState` literal of the game data. */
  function DefaultState(): PlayerState
  {
    PlayerState(
      currentNodeId := "intro_awakening",
      visitedNodes := [],
      activeView := MonologueView,
      knownKeywords := [],
      collectedClues := map[],
      solvedPuzzles := [],
      currentLocation := "bedroom",
      worldTime := "morning",
      dayCount := 1,
      alexRelationship := 5,
      selfDoubt := 3,
      unreadMessages := map["Echo" := 0, "Unknown" := 0],
      receivedEchoes := [],
      messageHistory := map["Echo" := [], "Unknown" := []])
  }

  /** A JavaScript string property is truthy: present and non-empty. */
  predicate Truthy(s: Option<string>)
  {
    s.Some? && s.value != ""
  }

  /** No id occurs twice. */
  predicate NoDuplicates(s: seq<string>)
  {
    forall i, j :: 0 <= i < j < |s| ==> s[i] != s[j]
  }

  /** `list.includes(x) || list.push(x)`: append `x` unless it is already there. */
  function AddOnce(s: seq<string>, x: string): (r: seq<string>)
  {
    if x in s then s else s + [x]
  }

  /** Adding to a duplicate-free list keeps it duplicate-free, and afterwards `x` is in it
      together with everything that was. */
  lemma AddOnceKeepsSet(s: seq<string>, x: string)
    requires NoDuplicates(s)
    ensures NoDuplicates(AddOnce(s, x))
    ensures x in AddOnce(s, x) && forall y :: y in s ==> y in AddOnce(s, x)
    ensures forall y :: y in AddOnce(s, x) ==> y in s || y == x
    ensures AddOnce(AddOnce(s, x), x) == AddOnce(s, x)
  {
  }

  /** `Math.max(1, Math.min(10, v))` */
  function Clamp(v: int): (r: int)
    ensures 1 <= r <= 10
    ensures 1 <= v <= 10 ==> r == v
    ensures v < 1 ==> r == 1
    ensures v > 10 ==> r == 10
  {
    if v > 10 then 10 else if v < 1 then 1 else v
  }

  /** The player-state invariants the engine keeps: both scores in [1,10], and the visited,
      known-keyword and solved-puzzle lists free of duplicates. */
  predicate Consistent(s: PlayerState)
  {
    && 1 <= s.selfDoubt <= 10
    && 1 <= s.alexRelationship <= 10
    && NoDuplicates(s.visitedNodes)
    && NoDuplicates(s.knownKeywords)
    && NoDuplicates(s.solvedPuzzles)
  }

  /** The default state satisfies the invariants and starts on the intro node, in the
      monologue view, with nothing visited, known or solved. */
  lemma DefaultStateConsistent()
    ensures Consistent(DefaultState())
    ensures DefaultState().currentNodeId == "intro_awakening" && DefaultState().activeView == MonologueView
    ensures DefaultState().visitedNodes == [] && DefaultState().knownKeywords == [] && DefaultState().solvedPuzzles == []
  {
  }
}

/**
 * The narrative engine object: it owns the player state and the listener table and
 * updates them in place. Every method is proved to leave exactly the state the
 * corresponding function of module Narrative computes from the state before the call,
 * so the properties proved there hold for the object.
 */
module Engine {
  import opened Wrappers
  import opened JsStrings
  import opened GameState
  import opened Narrative

  class GameEngine {
    /** The authored story tables the engine reads. */
    const content: Content
    var state: PlayerState
    var eventListeners: map<string, seq<ListenerId>>
    /** Every event triggered so far, with the listeners it called. */
    var emitted: seq<Emission>

    function Snapshot(): Machine
      reads this
    {
      Machine(state, eventListeners, emitted)
    }

    /** The default state and the five event names without listeners. */
    constructor(content: Content)
      ensures this.content == content
      ensures Snapshot() == Initial() && Wf(Snapshot())
    {
      this.content := content;
      state := DefaultState();
      eventListeners := InitialListeners();
      emitted := [];
      InitialWf();
    }

    /** `resetState()` */
    method ResetState()
      modifies this
      ensures Snapshot() == Reset(old(Snapshot()))
    {
      state := DefaultState();
    }

    /** `triggerEvent(event, data)`: call each listener of the event in subscription order. */
    method TriggerEvent(name: string, data: Payload) returns (ok: bool)
      modifies this
      ensures Step(ok, Snapshot()) == Trigger(old(Snapshot()), name, data)
    {
      if name !in eventListeners {
        return false;
      }
      var listeners := eventListeners[name];
      var called: seq<ListenerId> := [];
      for i := 0 to |listeners|
        invariant Snapshot() == old(Snapshot())
        invariant called == listeners[..i]
      {
        called := called + [listeners[i]];
      }
      assert called == listeners;
      emitted := emitted + [Emission(Event(name, data), called)];
      return true;
    }

    /** `addEventListener(event, callback)` */
    method AddEventListener(name: string, cb: ListenerId) returns (ok: bool)
      modifies this
      ensures Step(ok, Snapshot()) == AddListener(old(Snapshot()), name, cb)
    {
      if name in eventListeners {
        eventListeners := eventListeners[name := eventListeners[name] + [cb]];
        return true;
      }
      return false;
    }

    /** `removeEventListener(event, callback)` */
    method RemoveEventListener(name: string, cb: ListenerId) returns (ok: bool)
      modifies this
      ensures Step(ok, Snapshot()) == RemoveListener(old(Snapshot()), name, cb)
    {
      if name in eventListeners {
        eventListeners := eventListeners[name := Without(eventListeners[name], cb)];
        return true;
      }
      return false;
    }

    /** `setActiveView(view)` */
    method SetActiveView(view: View)
      modifies this
      ensures Snapshot() == SetView(old(Snapshot()), view)
    {
      if state.activeView != view {
        state := state.(activeView := view);
        var _ := TriggerEvent(ViewChanged, ViewData(view));
      }
    }

    /** `goToNode(nodeId)` */
    method GoToNode(nodeId: string) returns (ok: bool)
      modifies this
      ensures Step(ok, Snapshot()) == GoTo(content, old(Snapshot()), nodeId)
    {
      if nodeId !in content.nodes {
        return false;
      }
      if state.currentNodeId !in state.visitedNodes {
        state := state.(visitedNodes := state.visitedNodes + [state.currentNodeId]);
      }
      state := state.(currentNodeId := nodeId);
      var node := content.nodes[nodeId];
      if node.environment.Some? && node.environment.value != "" {
        state := state.(currentLocation := node.environment.value);
      }
      if node.nodeType == MessageReceived || node.nodeType == MessageChoices {
        SetActiveView(MessageView);
      } else if node.nodeType == Monologue {
        SetActiveView(MonologueView);
      }
      var _ := TriggerEvent(NodeChanged, NodeData(nodeId));
      return true;
    }

    /** `receiveEcho(sender, content)`, stamped with `now`. */
    method ReceiveEcho(sender: string, text: string, now: string) returns (ok: bool)
      modifies this
      ensures Step(ok, Snapshot()) == Narrative.ReceiveEcho(old(Snapshot()), sender, text, now)
    {
      state := state.(receivedEchoes := state.receivedEchoes + [Echo(sender, text, now, false)]);
      var _ := TriggerEvent(EchoReceived, EchoData(sender, text));
      return true;
    }

    /** `applyEffects(effects)`: each entry in order, then `stateChanged`. */
    method ApplyEffects(effects: seq<Effect>, now: string)
      modifies this
      ensures Snapshot() == Narrative.ApplyEffects(content, old(Snapshot()), effects, now)
    {
      for i := 0 to |effects|
        invariant Snapshot() == ApplyEach(content, old(Snapshot()), effects[..i], now)
      {
        assert effects[..i + 1][..i] == effects[..i];
        match effects[i]
        case SelfDoubt(d) =>
          state := state.(selfDoubt := Clamp(state.selfDoubt + d));
        case AlexRelationship(d) =>
          state := state.(alexRelationship := Clamp(state.alexRelationship + d));
        case ReceivedEchoes(id) =>
          if id in content.echoMessages {
            var message := content.echoMessages[id];
            var _ := ReceiveEcho(message.sender, message.content, now);
          }
        case KnownKeywords(k) =>
          if k !in state.knownKeywords {
            state := state.(knownKeywords := state.knownKeywords + [k]);
          }
        case Unrecognised(_) =>
      }
      assert effects[..|effects|] == effects;
      var _ := TriggerEvent(StateChanged, EffectsData(effects));
    }

    /** `makeChoice(choice)` */
    method MakeChoice(choice: Choice, now: string) returns (ok: bool)
      modifies this
      ensures Step(ok, Snapshot()) == Narrative.MakeChoice(content, old(Snapshot()), choice, now)
    {
      if choice.effects.Some? {
        ApplyEffects(choice.effects.value, now);
      }
      ok := GoToNode(choice.nextNodeId);
    }

    /** `examineKeyword(keywordId)` */
    method ExamineKeyword(keywordId: string) returns (ok: bool)
      modifies this
      ensures Step(ok, Snapshot()) == Narrative.ExamineKeyword(content, old(Snapshot()), keywordId)
    {
      if keywordId !in content.keywords {
        return false;
      }
      var keyword := content.keywords[keywordId];
      if keywordId !in state.knownKeywords {
        state := state.(knownKeywords := state.knownKeywords + [keywordId]);
      }
      if |keyword.unlockedNodes| > 0 {
        ok := GoToNode(keyword.unlockedNodes[0]);
        return;
      }
      return true;
    }

    /** The `onSolve` / `onFail` handling of `solvePuzzle`. */
    method FollowTransition(t: Option<Transition>, now: string)
      modifies this
      ensures Snapshot() == Follow(content, old(Snapshot()), t, now)
    {
      if t.Some? {
        if t.value.effects.Some? {
          ApplyEffects(t.value.effects.value, now);
        }
        if t.value.nextNodeId.Some? && t.value.nextNodeId.value != "" {
          var _ := GoToNode(t.value.nextNodeId.value);
        }
      }
    }

    /** `solvePuzzle(puzzleId, solution)` */
    method SolvePuzzle(puzzleId: string, solution: string, now: string) returns (correct: bool)
      requires puzzleId in content.puzzles ==> state.currentNodeId in content.nodes
      modifies this
      ensures Step(correct, Snapshot()) == Narrative.SolvePuzzle(content, old(Snapshot()), puzzleId, solution, now)
    {
      if puzzleId !in content.puzzles {
        return false;
      }
      var puzzle := content.puzzles[puzzleId];
      var currentNode := content.nodes[state.currentNodeId];
      if currentNode.nodeType != PuzzleNode || currentNode.puzzleId != Some(puzzleId) {
        return false;
      }
      correct := Lower(puzzle.solution) == Lower(solution);
      if correct {
        if puzzleId !in state.solvedPuzzles {
          state := state.(solvedPuzzles := state.solvedPuzzles + [puzzleId]);
        }
        FollowTransition(currentNode.onSolve, now);
        var _ := TriggerEvent(PuzzleSolved, PuzzleData(puzzleId));
      } else {
        FollowTransition(currentNode.onFail, now);
      }
    }
  }
}

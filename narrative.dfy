/**
 * The narrative engine's operations as functions of its whole state: the player state,
 * the listener table and the log of emitted events. A `triggerEvent` call is recorded as
 * an `Emission`: the event and the listeners it called, in the order it called them.
 * Timestamps are the `now` parameter.
 */
module Narrative {
  import opened Wrappers
  import opened JsStrings
  import opened GameState

  /** A registered callback, by identity. */
  type ListenerId = nat

  /** The data passed with an event. */
  datatype Payload =
    | EffectsData(effects: seq<Effect>)
    | NodeData(nodeId: string)
    | ViewData(view: View)
    | EchoData(sender: string, content: string)
    | PuzzleData(puzzleId: string)

  datatype Event = Event(name: string, payload: Payload)

  /** One `triggerEvent` call that found its event name: the event, and the listeners
      called with it, in order. */
  datatype Emission = Emission(event: Event, calledListeners: seq<ListenerId>)

  /** The engine's state: `this.state`, `this.eventListeners`, and what it has emitted. */
  datatype Machine = Machine(state: PlayerState, listeners: map<string, seq<ListenerId>>, emitted: seq<Emission>)

  /** A boolean result together with the state after the call. */
  datatype Step = Step(ok: bool, m: Machine)

  const StateChanged := "stateChanged"
  const NodeChanged := "nodeChanged"
  const ViewChanged := "viewChanged"
  const EchoReceived := "echoReceived"
  const PuzzleSolved := "puzzleSolved"

  /** The listener table the constructor sets up: the five event names, no listeners. */
  function InitialListeners(): map<string, seq<ListenerId>>
  {
    map[StateChanged := [], NodeChanged := [], ViewChanged := [], EchoReceived := [], PuzzleSolved := []]
  }

  predicate HasEventNames(ls: map<string, seq<ListenerId>>)
  {
    StateChanged in ls && NodeChanged in ls && ViewChanged in ls && EchoReceived in ls && PuzzleSolved in ls
  }

  /** The engine's invariant: a consistent player state and all five event names registered. */
  predicate Wf(m: Machine)
  {
    Consistent(m.state) && HasEventNames(m.listeners)
  }

  /** The state the constructor builds. */
  function Initial(): Machine
  {
    Machine(DefaultState(), InitialListeners(), [])
  }

  lemma InitialWf()
    ensures Wf(Initial()) && Initial().emitted == []
  {
    DefaultStateConsistent();
  }

  // ---------------------------------------------------------------------------
  // Events

  /** `triggerEvent(name, data)`: call every listener of a known event name in order. */
  function Trigger(m: Machine, name: string, data: Payload): Step
  {
    if name in m.listeners then
      Step(true, m.(emitted := m.emitted + [Emission(Event(name, data), m.listeners[name])]))
    else Step(false, m)
  }

  /** `triggerEvent` with its result ignored, as the engine's own calls do. */
  function Emit(m: Machine, name: string, data: Payload): Machine
  {
    Trigger(m, name, data).m
  }

  /** `addEventListener(name, cb)` */
  function AddListener(m: Machine, name: string, cb: ListenerId): Step
  {
    if name in m.listeners then Step(true, m.(listeners := m.listeners[name := m.listeners[name] + [cb]]))
    else Step(false, m)
  }

  /** `listeners.filter(x => x !== cb)` */
  function Without(ls: seq<ListenerId>, cb: ListenerId): (r: seq<ListenerId>)
    ensures cb !in r
    ensures forall x :: x in r <==> x in ls && x != cb
    ensures |r| <= |ls|
  {
    if ls == [] then []
    else (if ls[0] == cb then [] else [ls[0]]) + Without(ls[1..], cb)
  }

  /** Filtering keeps the other listeners in their order: removing a listener that is not
      there changes nothing, and filtering distributes over concatenation. */
  lemma {:induction false} WithoutAppend(a: seq<ListenerId>, b: seq<ListenerId>, cb: ListenerId)
    ensures Without(a + b, cb) == Without(a, cb) + Without(b, cb)
    ensures cb !in a ==> Without(a, cb) == a
    decreases |a|
  {
    if a != [] {
      var head := if a[0] == cb then [] else [a[0]];
      assert (a + b)[0] == a[0];
      assert (a + b)[1..] == a[1..] + b;
      WithoutAppend(a[1..], b, cb);
      assert Without(a + b, cb) == head + (Without(a[1..], cb) + Without(b, cb));
      assert Without(a, cb) == head + Without(a[1..], cb);
      assert head + (Without(a[1..], cb) + Without(b, cb)) == (head + Without(a[1..], cb)) + Without(b, cb);
    } else {
      assert a + b == b;
    }
  }

  /** `removeEventListener(name, cb)` */
  function RemoveListener(m: Machine, name: string, cb: ListenerId): Step
  {
    if name in m.listeners then Step(true, m.(listeners := m.listeners[name := Without(m.listeners[name], cb)]))
    else Step(false, m)
  }

  /** Subscribing works exactly for the registered names; a subscribed listener is called by
      the next trigger of its event after all earlier subscribers; unsubscribing removes it
      and keeps the others in order. Neither changes the player state or the log. */
  lemma ListenerSpec(m: Machine, name: string, cb: ListenerId, data: Payload)
    ensures AddListener(m, name, cb).ok <==> name in m.listeners
    ensures RemoveListener(m, name, cb).ok <==> name in m.listeners
    ensures var r := AddListener(m, name, cb).m;
            r.state == m.state && r.emitted == m.emitted && r.listeners.Keys == m.listeners.Keys
    ensures var r := RemoveListener(m, name, cb).m;
            r.state == m.state && r.emitted == m.emitted && r.listeners.Keys == m.listeners.Keys
    ensures name in m.listeners ==>
              var r := Trigger(AddListener(m, name, cb).m, name, data).m;
              r.emitted[|r.emitted| - 1].calledListeners == m.listeners[name] + [cb]
    ensures name in m.listeners ==>
              var r := Trigger(RemoveListener(m, name, cb).m, name, data).m;
              cb !in r.emitted[|r.emitted| - 1].calledListeners
    ensures name in m.listeners ==>
              var r := RemoveListener(AddListener(m, name, cb).m, name, cb).m;
              r.listeners[name] == Without(m.listeners[name], cb)
  {
    if name in m.listeners {
      WithoutAppend(m.listeners[name], [cb], cb);
    }
  }

  /** Listeners X then Y subscribed to `nodeChanged`: one navigation calls X, then Y. */
  lemma FanOutOrder(c: Content, m: Machine, x: ListenerId, y: ListenerId, id: string)
    requires Wf(m) && m.listeners[NodeChanged] == [] && id in c.nodes
    ensures var m2 := AddListener(AddListener(m, NodeChanged, x).m, NodeChanged, y).m;
            var r := GoTo(c, m2, id).m;
            r.emitted[|r.emitted| - 1] == Emission(Event(NodeChanged, NodeData(id)), [x, y])
  {
    var m2 := AddListener(AddListener(m, NodeChanged, x).m, NodeChanged, y).m;
    GoToSpec(c, m2, id);
  }

  // ---------------------------------------------------------------------------
  // Navigation

  /** `setActiveView(view)` */
  function SetView(m: Machine, v: View): Machine
  {
    if m.state.activeView == v then m
    else Emit(m.(state := m.state.(activeView := v)), ViewChanged, ViewData(v))
  }

  /** Setting the current view does nothing at all; setting another one switches to it and
      emits exactly one `viewChanged`. */
  lemma SetViewSpec(m: Machine, v: View)
    requires ViewChanged in m.listeners
    ensures SetView(m, v) == m <==> m.state.activeView == v
    ensures m.state.activeView != v ==>
              && SetView(m, v).state == m.state.(activeView := v)
              && SetView(m, v).listeners == m.listeners
              && SetView(m, v).emitted == m.emitted + [Emission(Event(ViewChanged, ViewData(v)), m.listeners[ViewChanged])]
  {
  }

  /** The view a node type switches to, if any. */
  function ViewFor(t: NodeType): Option<View>
  {
    match t
    case MessageReceived => Some(MessageView)
    case MessageChoices => Some(MessageView)
    case Monologue => Some(MonologueView)
    case PuzzleNode => None
    case KeywordInfo => None
  }

  /** `getCurrentNode()` */
  function CurrentNode(c: Content, s: PlayerState): (r: Option<Node>)
    ensures r.Some? <==> s.currentNodeId in c.nodes
    ensures r.Some? ==> r.value == c.nodes[s.currentNodeId]
  {
    if s.currentNodeId in c.nodes then Some(c.nodes[s.currentNodeId]) else None
  }

  /** `goToNode(nodeId)` */
  function GoTo(c: Content, m: Machine, id: string): Step
  {
    if id !in c.nodes then Step(false, m)
    else
      var st := m.state;
      var visited := st.(visitedNodes := AddOnce(st.visitedNodes, st.currentNodeId), currentNodeId := id);
      var node := c.nodes[id];
      var located := if Truthy(node.environment) then visited.(currentLocation := node.environment.value) else visited;
      var m1 := m.(state := located);
      var m2 := match ViewFor(node.nodeType) case Some(v) => SetView(m1, v) case None => m1;
      Step(true, Emit(m2, NodeChanged, NodeData(id)))
  }

  /** An unknown id is refused with nothing changed. A known one becomes current, the node
      left is recorded as visited unless it already was, the location follows the node's
      environment when it has one, the view follows its type, and the log gains an optional
      `viewChanged` followed by `nodeChanged`. */
  lemma GoToSpec(c: Content, m: Machine, id: string)
    requires HasEventNames(m.listeners)
    ensures var r := GoTo(c, m, id);
            && (r.ok <==> id in c.nodes)
            && (!r.ok ==> r.m == m)
    ensures var r := GoTo(c, m, id);
            var st := m.state;
            id in c.nodes ==>
              var node := c.nodes[id];
              var v := match ViewFor(node.nodeType) case Some(w) => w case None => st.activeView;
              && r.m.state == st.(currentNodeId := id,
                                  visitedNodes := AddOnce(st.visitedNodes, st.currentNodeId),
                                  currentLocation := if Truthy(node.environment) then node.environment.value
                                                     else st.currentLocation,
                                  activeView := v)
              && r.m.listeners == m.listeners
              && r.m.emitted == m.emitted
                                + (if v != st.activeView then [Emission(Event(ViewChanged, ViewData(v)), m.listeners[ViewChanged])] else [])
                                + [Emission(Event(NodeChanged, NodeData(id)), m.listeners[NodeChanged])]
  {
  }

  /** Navigation keeps the invariant: no node is recorded as visited twice. */
  lemma GoToWf(c: Content, m: Machine, id: string)
    requires Wf(m)
    ensures Wf(GoTo(c, m, id).m)
    ensures var r := GoTo(c, m, id);
            r.ok ==> m.state.currentNodeId in r.m.state.visitedNodes &&
                     forall n :: n in m.state.visitedNodes ==> n in r.m.state.visitedNodes
  {
    GoToSpec(c, m, id);
    AddOnceKeepsSet(m.state.visitedNodes, m.state.currentNodeId);
  }

  /** Navigating A to B to C records A and B, in that order; navigating A to B and back to A
      records A and B once each, however often it is repeated. */
  lemma VisitedTracking(c: Content, m: Machine, a: string, b: string, cc: string)
    requires HasEventNames(m.listeners) && m.state.currentNodeId == a && m.state.visitedNodes == []
    requires a in c.nodes && b in c.nodes && cc in c.nodes && a != b
    ensures GoTo(c, GoTo(c, m, b).m, cc).m.state.visitedNodes == [a, b]
    ensures var back := GoTo(c, GoTo(c, m, b).m, a).m;
            back.state.visitedNodes == [a, b] && back.state.currentNodeId == a &&
            GoTo(c, GoTo(c, back, b).m, a).m.state.visitedNodes == [a, b]
  {
    GoToSpec(c, m, b);
    var m1 := GoTo(c, m, b).m;
    GoToSpec(c, m1, cc);
    GoToSpec(c, m1, a);
    var back := GoTo(c, m1, a).m;
    GoToSpec(c, back, b);
    GoToSpec(c, GoTo(c, back, b).m, a);
  }

  // ---------------------------------------------------------------------------
  // Effects

  /** `receiveEcho(sender, content)` at time `now`. */
  function ReceiveEcho(m: Machine, sender: string, content: string, now: string): Step
  {
    var st := m.state.(receivedEchoes := m.state.receivedEchoes + [Echo(sender, content, now, false)]);
    Step(true, Emit(m.(state := st), EchoReceived, EchoData(sender, content)))
  }

  /** Receiving an echo appends exactly one unread record and emits one `echoReceived`;
      nothing else changes. */
  lemma ReceiveEchoSpec(m: Machine, sender: string, content: string, now: string)
    requires Wf(m)
    ensures var r := ReceiveEcho(m, sender, content, now);
            && r.ok && Wf(r.m) && r.m.listeners == m.listeners
            && r.m.state == m.state.(receivedEchoes := r.m.state.receivedEchoes)
            && |r.m.state.receivedEchoes| == |m.state.receivedEchoes| + 1
            && r.m.state.receivedEchoes[..|m.state.receivedEchoes|] == m.state.receivedEchoes
            && r.m.state.receivedEchoes[|m.state.receivedEchoes|] == Echo(sender, content, now, false)
            && r.m.emitted == m.emitted + [Emission(Event(EchoReceived, EchoData(sender, content)), m.listeners[EchoReceived])]
  {
  }

  /** One effect entry. */
  function ApplyEffect(c: Content, m: Machine, e: Effect, now: string): Machine
  {
    match e
    case SelfDoubt(d) => m.(state := m.state.(selfDoubt := Clamp(m.state.selfDoubt + d)))
    case AlexRelationship(d) => m.(state := m.state.(alexRelationship := Clamp(m.state.alexRelationship + d)))
    case ReceivedEchoes(id) =>
      if id in c.echoMessages then ReceiveEcho(m, c.echoMessages[id].sender, c.echoMessages[id].content, now).m
      else m
    case KnownKeywords(k) => m.(state := m.state.(knownKeywords := AddOnce(m.state.knownKeywords, k)))
    case Unrecognised(_) => m
  }

  /** The entries applied in order. */
  function ApplyEach(c: Content, m: Machine, effs: seq<Effect>, now: string): Machine
    decreases |effs|
  {
    if effs == [] then m
    else ApplyEffect(c, ApplyEach(c, m, effs[..|effs| - 1], now), effs[|effs| - 1], now)
  }

  /** `applyEffects(effects)`: every entry, then one `stateChanged`. */
  function ApplyEffects(c: Content, m: Machine, effs: seq<Effect>, now: string): Machine
  {
    Emit(ApplyEach(c, m, effs, now), StateChanged, EffectsData(effs))
  }

  /** The number of entries naming a known echo message. */
  function KnownEchoCount(c: Content, effs: seq<Effect>): nat
    decreases |effs|
  {
    if effs == [] then 0
    else KnownEchoCount(c, effs[..|effs| - 1])
         + (match effs[|effs| - 1] case ReceivedEchoes(id) => if id in c.echoMessages then 1 else 0 case _ => 0)
  }

  /** An unknown echo id and an unrecognised key are ignored. */
  lemma IgnoredEffects(c: Content, m: Machine, id: string, key: string, now: string)
    requires id !in c.echoMessages
    ensures ApplyEffect(c, m, ReceivedEchoes(id), now) == m
    ensures ApplyEffect(c, m, Unrecognised(key), now) == m
  {
  }

  /** What a single entry leaves alone. */
  predicate EffectFrame(m: Machine, r: Machine)
  {
    && r.listeners == m.listeners
    && r.state.currentNodeId == m.state.currentNodeId
    && r.state.visitedNodes == m.state.visitedNodes
    && r.state.activeView == m.state.activeView
    && r.state.currentLocation == m.state.currentLocation
    && r.state.solvedPuzzles == m.state.solvedPuzzles
    && (1 <= m.state.selfDoubt <= 10 ==> 1 <= r.state.selfDoubt <= 10)
    && (1 <= m.state.alexRelationship <= 10 ==> 1 <= r.state.alexRelationship <= 10)
  }

  lemma ApplyEffectFrame(c: Content, m: Machine, e: Effect, now: string)
    ensures EffectFrame(m, ApplyEffect(c, m, e, now))
  {
  }

  /** Effects never navigate or touch the listeners: node, visited list, view, location and
      solved puzzles are as before; scores in [1,10] stay in [1,10]. */
  lemma {:induction false} ApplyEachFrame(c: Content, m: Machine, effs: seq<Effect>, now: string)
    ensures EffectFrame(m, ApplyEach(c, m, effs, now))
    decreases |effs|
  {
    if effs != [] {
      var init := effs[..|effs| - 1];
      ApplyEachFrame(c, m, init, now);
      ApplyEffectFrame(c, ApplyEach(c, m, init, now), effs[|effs| - 1], now);
    }
  }

  /** Keyword entries add their ids once each: afterwards the known keywords are exactly the
      earlier ones and those the entries name, still without duplicates. */
  lemma {:induction false} ApplyEachKeywords(c: Content, m: Machine, effs: seq<Effect>, now: string)
    requires NoDuplicates(m.state.knownKeywords)
    ensures var r := ApplyEach(c, m, effs, now);
            && NoDuplicates(r.state.knownKeywords)
            && forall k :: k in r.state.knownKeywords <==> k in m.state.knownKeywords || KnownKeywords(k) in effs
    decreases |effs|
  {
    if effs != [] {
      var init := effs[..|effs| - 1];
      ApplyEachKeywords(c, m, init, now);
      var r' := ApplyEach(c, m, init, now);
      assert effs == init + [effs[|effs| - 1]];
      if effs[|effs| - 1].KnownKeywords? {
        AddOnceKeepsSet(r'.state.knownKeywords, effs[|effs| - 1].keywordId);
      }
    }
  }

  /** Echo entries with a known id each append one record and emit one `echoReceived`, in
      order; no other event is emitted while the entries are applied. */
  lemma {:induction false} ApplyEachEchoes(c: Content, m: Machine, effs: seq<Effect>, now: string)
    requires EchoReceived in m.listeners
    ensures var r := ApplyEach(c, m, effs, now);
            && |r.emitted| == |m.emitted| + KnownEchoCount(c, effs)
            && r.emitted[..|m.emitted|] == m.emitted
            && (forall i :: |m.emitted| <= i < |r.emitted| ==> r.emitted[i].event.name == EchoReceived)
            && |r.state.receivedEchoes| == |m.state.receivedEchoes| + KnownEchoCount(c, effs)
            && r.state.receivedEchoes[..|m.state.receivedEchoes|] == m.state.receivedEchoes
    decreases |effs|
  {
    if effs != [] {
      var init := effs[..|effs| - 1];
      ApplyEachEchoes(c, m, init, now);
      ApplyEachFrame(c, m, init, now);
      var r' := ApplyEach(c, m, init, now);
      var r := ApplyEach(c, m, effs, now);
      assert r == ApplyEffect(c, r', effs[|effs| - 1], now);
      assert r.emitted[..|r'.emitted|] == r'.emitted;
      assert r.emitted[..|m.emitted|] == r'.emitted[..|m.emitted|];
      assert r.state.receivedEchoes[..|r'.state.receivedEchoes|] == r'.state.receivedEchoes;
      assert r.state.receivedEchoes[..|m.state.receivedEchoes|] == r'.state.receivedEchoes[..|m.state.receivedEchoes|];
    }
  }

  /** `applyEffects` keeps the invariant, emits exactly one `stateChanged`, after the
      `echoReceived` of every known echo entry, and leaves navigation alone. */
  lemma ApplyEffectsSpec(c: Content, m: Machine, effs: seq<Effect>, now: string)
    requires Wf(m)
    ensures var r := ApplyEffects(c, m, effs, now);
            && Wf(r) && r.listeners == m.listeners
            && r.state.currentNodeId == m.state.currentNodeId
            && r.state.visitedNodes == m.state.visitedNodes
            && r.state.activeView == m.state.activeView
            && r.state.solvedPuzzles == m.state.solvedPuzzles
            && |r.emitted| == |m.emitted| + KnownEchoCount(c, effs) + 1
            && r.emitted[..|m.emitted|] == m.emitted
            && (forall i :: |m.emitted| <= i < |r.emitted| - 1 ==> r.emitted[i].event.name == EchoReceived)
            && r.emitted[|r.emitted| - 1] == Emission(Event(StateChanged, EffectsData(effs)), m.listeners[StateChanged])
            && forall k :: k in r.state.knownKeywords <==> k in m.state.knownKeywords || KnownKeywords(k) in effs
  {
    ApplyEachFrame(c, m, effs, now);
    ApplyEachKeywords(c, m, effs, now);
    ApplyEachEchoes(c, m, effs, now);
    var a := ApplyEach(c, m, effs, now);
    var r := ApplyEffects(c, m, effs, now);
    assert r.emitted == a.emitted + [r.emitted[|r.emitted| - 1]];
    assert r.emitted[..|m.emitted|] == a.emitted[..|m.emitted|];
  }

  /** Starting at 3, two `selfDoubt` entries of -5 leave 1, not -7. */
  lemma ClampExample(c: Content, m: Machine, now: string)
    requires m.state.selfDoubt == 3
    ensures ApplyEffects(c, m, [SelfDoubt(-5), SelfDoubt(-5)], now).state.selfDoubt == 1
  {
    var effs := [SelfDoubt(-5), SelfDoubt(-5)];
    var one := [SelfDoubt(-5)];
    assert effs[..1] == one && one[..0] == [];
    var once := ApplyEach(c, m, one, now);
    assert ApplyEach(c, m, one[..0], now) == m;
    assert once == ApplyEffect(c, m, SelfDoubt(-5), now);
    assert once.state.selfDoubt == 1;
    assert ApplyEach(c, m, effs, now) == ApplyEffect(c, once, SelfDoubt(-5), now);
  }

  // ---------------------------------------------------------------------------
  // Choices, keywords, puzzles

  /** `makeChoice(choice)`: the effects first, then navigation. */
  function MakeChoice(c: Content, m: Machine, ch: Choice, now: string): Step
  {
    var applied := if ch.effects.Some? then ApplyEffects(c, m, ch.effects.value, now) else m;
    GoTo(c, applied, ch.nextNodeId)
  }

  /** A choice succeeds exactly when its target exists; its effects are applied either way,
      and a failed navigation leaves exactly the state they produced. A successful one moves
      from that state to the target: the node left is recorded as visited, nothing the
      effects set is undone, and `nodeChanged` is emitted last. */
  lemma MakeChoiceSpec(c: Content, m: Machine, ch: Choice, now: string)
    requires Wf(m)
    ensures var r := MakeChoice(c, m, ch, now);
            var applied := if ch.effects.Some? then ApplyEffects(c, m, ch.effects.value, now) else m;
            && Wf(r.m)
            && (r.ok <==> ch.nextNodeId in c.nodes)
            && (!r.ok ==> r.m == applied)
            && (r.ok ==>
                  var st := applied.state;
                  && r.m.state == st.(currentNodeId := ch.nextNodeId,
                                      visitedNodes := AddOnce(st.visitedNodes, st.currentNodeId),
                                      currentLocation := r.m.state.currentLocation,
                                      activeView := r.m.state.activeView)
                  && r.m.listeners == m.listeners
                  && |r.m.emitted| > |applied.emitted|
                  && r.m.emitted[..|applied.emitted|] == applied.emitted
                  && r.m.emitted[|r.m.emitted| - 1]
                       == Emission(Event(NodeChanged, NodeData(ch.nextNodeId)), m.listeners[NodeChanged]))
  {
    var applied := if ch.effects.Some? then ApplyEffects(c, m, ch.effects.value, now) else m;
    if ch.effects.Some? {
      ApplyEffectsSpec(c, m, ch.effects.value, now);
    }
    GoToSpec(c, applied, ch.nextNodeId);
    GoToWf(c, applied, ch.nextNodeId);
  }

  /** `examineKeyword(keywordId)` */
  function ExamineKeyword(c: Content, m: Machine, id: string): Step
  {
    if id !in c.keywords then Step(false, m)
    else
      var m1 := m.(state := m.state.(knownKeywords := AddOnce(m.state.knownKeywords, id)));
      var kw := c.keywords[id];
      if |kw.unlockedNodes| > 0 then GoTo(c, m1, kw.unlockedNodes[0]) else Step(true, m1)
  }

  /** An unknown keyword is refused with nothing changed. A known one is recorded once.
      Without unlocked nodes that is the only change and the result is true; with them the
      result is that of navigating to the first one, which on failure leaves only the
      recorded keyword, and on success moves to it keeping everything else, the earlier
      log included. */
  lemma ExamineKeywordSpec(c: Content, m: Machine, id: string)
    requires Wf(m)
    ensures var r := ExamineKeyword(c, m, id);
            && Wf(r.m)
            && (id !in c.keywords ==> r == Step(false, m))
            && (id in c.keywords ==>
                  && id in r.m.state.knownKeywords
                  && (forall k :: k in r.m.state.knownKeywords <==> k in m.state.knownKeywords || k == id)
                  && (r.ok <==> |c.keywords[id].unlockedNodes| == 0 || c.keywords[id].unlockedNodes[0] in c.nodes)
                  && var m1 := m.(state := m.state.(knownKeywords := AddOnce(m.state.knownKeywords, id)));
                     var un := c.keywords[id].unlockedNodes;
                     && (!r.ok || |un| == 0 ==> r.m == m1)
                     && (r.ok && |un| > 0 ==>
                           && r.m.state == m1.state.(currentNodeId := un[0],
                                                     visitedNodes := AddOnce(m.state.visitedNodes, m.state.currentNodeId),
                                                     currentLocation := r.m.state.currentLocation,
                                                     activeView := r.m.state.activeView)
                           && r.m.listeners == m.listeners
                           && |r.m.emitted| > |m.emitted|
                           && r.m.emitted[..|m.emitted|] == m.emitted
                           && r.m.emitted[|r.m.emitted| - 1]
                                == Emission(Event(NodeChanged, NodeData(un[0])), m.listeners[NodeChanged])))
            && ExamineKeyword(c, r.m, id).m.state.knownKeywords == r.m.state.knownKeywords
  {
    if id in c.keywords {
      var m1 := m.(state := m.state.(knownKeywords := AddOnce(m.state.knownKeywords, id)));
      AddOnceKeepsSet(m.state.knownKeywords, id);
      var kw := c.keywords[id];
      if |kw.unlockedNodes| > 0 {
        GoToSpec(c, m1, kw.unlockedNodes[0]);
        GoToWf(c, m1, kw.unlockedNodes[0]);
        var r := GoTo(c, m1, kw.unlockedNodes[0]).m;
        AddOnceKeepsSet(r.state.knownKeywords, id);
        GoToSpec(c, r.(state := r.state.(knownKeywords := AddOnce(r.state.knownKeywords, id))), kw.unlockedNodes[0]);
      }
    }
  }

  /** The effects and then the navigation of an `onSolve` or `onFail` entry. */
  function Follow(c: Content, m: Machine, t: Option<Transition>, now: string): Machine
  {
    if t.None? then m
    else
      var applied := if t.value.effects.Some? then ApplyEffects(c, m, t.value.effects.value, now) else m;
      if Truthy(t.value.nextNodeId) then GoTo(c, applied, t.value.nextNodeId.value).m else applied
  }

  lemma FollowWf(c: Content, m: Machine, t: Option<Transition>, now: string)
    requires Wf(m)
    ensures Wf(Follow(c, m, t, now)) && Follow(c, m, t, now).listeners == m.listeners
    ensures Follow(c, m, t, now).state.solvedPuzzles == m.state.solvedPuzzles
  {
    if t.Some? {
      var applied := if t.value.effects.Some? then ApplyEffects(c, m, t.value.effects.value, now) else m;
      if t.value.effects.Some? {
        ApplyEffectsSpec(c, m, t.value.effects.value, now);
      }
      if Truthy(t.value.nextNodeId) {
        GoToSpec(c, applied, t.value.nextNodeId.value);
        GoToWf(c, applied, t.value.nextNodeId.value);
      }
    }
  }

  /** The current node is the active puzzle node of `pid`. */
  predicate InPuzzleContext(c: Content, s: PlayerState, pid: string)
  {
    s.currentNodeId in c.nodes
    && c.nodes[s.currentNodeId].nodeType == PuzzleNode
    && c.nodes[s.currentNodeId].puzzleId == Some(pid)
  }

  /** `solvePuzzle(puzzleId, solution)`; the source reads the current node's fields without
      checking it exists, so a known puzzle id needs an existing current node. */
  function SolvePuzzle(c: Content, m: Machine, pid: string, solution: string, now: string): Step
    requires pid in c.puzzles ==> m.state.currentNodeId in c.nodes
  {
    if pid !in c.puzzles then Step(false, m)
    else
      var node := c.nodes[m.state.currentNodeId];
      if node.nodeType != PuzzleNode || node.puzzleId != Some(pid) then Step(false, m)
      else if Lower(c.puzzles[pid].solution) == Lower(solution) then
        var solved := m.(state := m.state.(solvedPuzzles := AddOnce(m.state.solvedPuzzles, pid)));
        Step(true, Emit(Follow(c, solved, node.onSolve, now), PuzzleSolved, PuzzleData(pid)))
      else Step(false, Follow(c, m, node.onFail, now))
  }

  /** An unknown puzzle, or a puzzle other than the current node's, is refused with nothing
      changed. Otherwise the result is whether the attempt matches the solution up to ASCII
      case; a correct attempt records the puzzle once, follows `onSolve` and emits
      `puzzleSolved` last; a wrong one only follows `onFail`. */
  lemma SolvePuzzleSpec(c: Content, m: Machine, pid: string, solution: string, now: string)
    requires Wf(m) && (pid in c.puzzles ==> m.state.currentNodeId in c.nodes)
    ensures var r := SolvePuzzle(c, m, pid, solution, now);
            && Wf(r.m)
            && (pid !in c.puzzles || !InPuzzleContext(c, m.state, pid) ==> r == Step(false, m))
            && (pid in c.puzzles && InPuzzleContext(c, m.state, pid) ==>
                  var sol := c.puzzles[pid].solution;
                  var node := c.nodes[m.state.currentNodeId];
                  && (r.ok <==> |sol| == |solution| && forall i :: 0 <= i < |sol| ==> LowerChar(sol[i]) == LowerChar(solution[i]))
                  && (r.ok ==>
                        var solved := Follow(c, m.(state := m.state.(solvedPuzzles := AddOnce(m.state.solvedPuzzles, pid))),
                                             node.onSolve, now);
                        && r.m.state.solvedPuzzles == AddOnce(m.state.solvedPuzzles, pid)
                        && r.m.state == solved.state && r.m.listeners == m.listeners
                        && |r.m.emitted| == |solved.emitted| + 1
                        && r.m.emitted[..|solved.emitted|] == solved.emitted
                        && r.m.emitted[|r.m.emitted| - 1] == Emission(Event(PuzzleSolved, PuzzleData(pid)), m.listeners[PuzzleSolved]))
                  && (!r.ok ==> r.m == Follow(c, m, node.onFail, now)))
  {
    if pid in c.puzzles && InPuzzleContext(c, m.state, pid) {
      var node := c.nodes[m.state.currentNodeId];
      LowerEqualIff(c.puzzles[pid].solution, solution);
      var solved := m.(state := m.state.(solvedPuzzles := AddOnce(m.state.solvedPuzzles, pid)));
      AddOnceKeepsSet(m.state.solvedPuzzles, pid);
      FollowWf(c, solved, node.onSolve, now);
      FollowWf(c, m, node.onFail, now);
    }
  }

  /** Solving twice leaves the puzzle recorded once. */
  lemma SolveTwiceOnce(c: Content, m: Machine, pid: string, solution: string, now: string)
    requires Wf(m) && pid in c.puzzles && InPuzzleContext(c, m.state, pid)
    requires Lower(c.puzzles[pid].solution) == Lower(solution)
    ensures var r := SolvePuzzle(c, m, pid, solution, now).m;
            r.state.currentNodeId in c.nodes ==>
              SolvePuzzle(c, r, pid, solution, now).m.state.solvedPuzzles == r.state.solvedPuzzles
  {
    SolvePuzzleSpec(c, m, pid, solution, now);
    var r := SolvePuzzle(c, m, pid, solution, now).m;
    assert pid in r.state.solvedPuzzles;
    if r.state.currentNodeId in c.nodes {
      SolvePuzzleSpec(c, r, pid, solution, now);
    }
  }

  /** With the solution "DAWNBREAKER", "dawnbreaker" and "DawnBreaker" are correct and
      "DAWN BREAKER" is not. */
  lemma DawnbreakerExamples()
    ensures Lower("dawnbreaker") == Lower("DAWNBREAKER")
    ensures Lower("DawnBreaker") == Lower("DAWNBREAKER")
    ensures Lower("DAWN BREAKER") != Lower("DAWNBREAKER")
  {
    LowerEqualIff("dawnbreaker", "DAWNBREAKER");
    LowerEqualIff("DawnBreaker", "DAWNBREAKER");
    assert |Lower("DAWN BREAKER")| == 12;
  }

  /** `resetState()`: the default state; listeners and log are kept. */
  function Reset(m: Machine): Machine
  {
    m.(state := DefaultState())
  }

  lemma ResetWf(m: Machine)
    requires HasEventNames(m.listeners)
    ensures Wf(Reset(m)) && Reset(m).state == DefaultState()
  {
    DefaultStateConsistent();
  }
}

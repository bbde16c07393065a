/**
 * The scripted-dialogue replayer of runner.py: branch selection and the walk
 * over the scenario's nodes that emits one transcript record per visited node.
 *
 * The target model is an oracle `generate` from the conversation so far to the
 * assistant's reply (`None` when the call raises).  The transcript file is an
 * object whose ghost `records` only ever grow.  The walk can cycle through
 * branches, so it runs on `fuel` node visits; `FuelExhausted` marks a walk the
 * source would still be running.
 */
module Runner {
  import opened Wrappers
  import opened Turns

  /** The entry node every replay starts from. */
  const EntryId := "u1"

  datatype Branch = Branch(condition: string, nextNode: string)

  /**
   * A scenario node.  `content` is `None` when the key is absent; `branches`
   * is `None` when the key is absent and `Some([])` when it holds an empty list.
   */
  datatype Node = Node(
    id: string,
    role: string,
    content: Option<string>,
    phase: Option<string>,
    branches: Option<seq<Branch>>)

  /** A chat message of the evaluated conversation state. */
  datatype Message = Message(role: Role, content: string)

  datatype ReplayError =
    | NodeNotFound(missingId: string)
    | BranchNotFound(branchLabel: string)
    | MissingContent(nodeId: string)
    | GenerationFailed(nodeId: string)

  datatype Outcome = Finished | Failed(error: ReplayError) | FuelExhausted

  // ---------------------------------------------------------------------------
  // Branch selection
  // ---------------------------------------------------------------------------

  /** `node.get("branches", [])` */
  function BranchesOf(node: Node): seq<Branch> {
    if node.branches.Some? then node.branches.value else []
  }

  /** The `next_node` of the first branch, in declared order, whose condition is exactly `branchLabel`. */
  function BranchTarget(bs: seq<Branch>, branchLabel: string): Option<string> {
    if bs == [] then None
    else if bs[0].condition == branchLabel then Some(bs[0].nextNode)
    else BranchTarget(bs[1..], branchLabel)
  }

  /** `BranchTarget` finds the first matching branch in declared order, and nothing when none matches. */
  lemma {:induction false} BranchTargetFirstMatch(bs: seq<Branch>, branchLabel: string)
    ensures BranchTarget(bs, branchLabel).None? <==> forall j :: 0 <= j < |bs| ==> bs[j].condition != branchLabel
    ensures BranchTarget(bs, branchLabel).Some? ==>
              exists k :: 0 <= k < |bs| && bs[k].condition == branchLabel &&
                          bs[k].nextNode == BranchTarget(bs, branchLabel).value &&
                          forall j :: 0 <= j < k ==> bs[j].condition != branchLabel
  {
    if bs != [] && bs[0].condition != branchLabel {
      BranchTargetFirstMatch(bs[1..], branchLabel);
      assert forall j :: 1 <= j < |bs| ==> bs[j] == bs[1..][j - 1];
      var r := BranchTarget(bs, branchLabel);
      if r.Some? {
        var k :| 0 <= k < |bs[1..]| && bs[1..][k].condition == branchLabel && bs[1..][k].nextNode == r.value &&
                 forall j :: 0 <= j < k ==> bs[1..][j].condition != branchLabel;
        assert bs[k + 1] == bs[1..][k];
      }
    }
  }

  /** runner.py `select_branch`: scan the branches in order, return on the first match, raise otherwise. */
  method SelectBranch(node: Node, branchLabel: string) returns (r: Result<string, ReplayError>)
    ensures r.Ok? <==> exists j :: 0 <= j < |BranchesOf(node)| && BranchesOf(node)[j].condition == branchLabel
    ensures r.Ok? ==> exists k :: 0 <= k < |BranchesOf(node)| && BranchesOf(node)[k].condition == branchLabel &&
                                  BranchesOf(node)[k].nextNode == r.value &&
                                  forall j :: 0 <= j < k ==> BranchesOf(node)[j].condition != branchLabel
    ensures BranchTarget(BranchesOf(node), branchLabel) == if r.Ok? then Some(r.value) else None
    ensures r.Err? ==> r.error == BranchNotFound(branchLabel)
  {
    var bs := BranchesOf(node);
    BranchTargetFirstMatch(bs, branchLabel);
    var i := 0;
    while i < |bs|
      invariant 0 <= i <= |bs|
      invariant forall j :: 0 <= j < i ==> bs[j].condition != branchLabel
    {
      if bs[i].condition == branchLabel {
        return Ok(bs[i].nextNode);
      }
      i := i + 1;
    }
    return Err(BranchNotFound(branchLabel));
  }

  // ---------------------------------------------------------------------------
  // The scenario as a node list and an id -> node map
  // ---------------------------------------------------------------------------

  /** `{node["id"]: node for node in nodes}[id]`: the last node declared with that id wins. */
  function Lookup(script: seq<Node>, id: string): (r: Option<Node>)
    ensures r.Some? ==> r.value in script && r.value.id == id
  {
    if script == [] then None
    else if script[|script| - 1].id == id then Some(script[|script| - 1])
    else Lookup(script[..|script| - 1], id)
  }

  /** Lookup fails exactly for an id no node declares, and otherwise yields the last node declared with it. */
  lemma {:induction false} LookupLastWins(script: seq<Node>, id: string)
    ensures Lookup(script, id).None? <==> forall j :: 0 <= j < |script| ==> script[j].id != id
    ensures Lookup(script, id).Some? ==>
              exists k :: 0 <= k < |script| && script[k] == Lookup(script, id).value &&
                          Lookup(script, id).value.id == id &&
                          forall j :: k < j < |script| ==> script[j].id != id
  {
    if script == [] {
    } else if script[|script| - 1].id == id {
      assert script[|script| - 1] == Lookup(script, id).value;
    } else {
      var init := script[..|script| - 1];
      LookupLastWins(init, id);
      assert Lookup(script, id) == Lookup(init, id);
      forall j | 0 <= j < |init| ensures init[j] == script[j] { }
      match Lookup(init, id)
      case None =>
        forall j | 0 <= j < |script| ensures script[j].id != id {
          if j < |init| { assert init[j].id != id; }
        }
      case Some(n) =>
        var k :| 0 <= k < |init| && init[k] == n && n.id == id &&
                 forall j :: k < j < |init| ==> init[j].id != id;
        assert script[k] == n;
        assert forall j :: k < j < |script| ==> script[j].id != id;
    }
  }

  /** `ordered.index(node)`: the first position holding a node equal to `node`. */
  function IndexOfNode(script: seq<Node>, node: Node): (i: nat)
    requires node in script
    ensures i < |script| && script[i] == node
    ensures forall j :: 0 <= j < i ==> script[j] != node
  {
    if script[0] == node then 0 else 1 + IndexOfNode(script[1..], node)
  }

  /** The node declared right after `node`, if any. */
  function DeclaredNext(script: seq<Node>, node: Node): Option<Node>
    requires node in script
  {
    var idx := IndexOfNode(script, node);
    if idx + 1 < |script| then Some(script[idx + 1]) else None
  }

  /** No two nodes share an id (the scenario format promises this; the code does not check it). */
  predicate UniqueIds(script: seq<Node>) {
    forall i, j :: 0 <= i < j < |script| ==> script[i].id != script[j].id
  }

  /** With unique ids, the id map and the list agree: lookup finds the node at its position, and its declared successor is the next position. */
  lemma UniqueIdsPositional(script: seq<Node>, i: nat)
    requires UniqueIds(script) && i < |script|
    ensures Lookup(script, script[i].id) == Some(script[i])
    ensures DeclaredNext(script, script[i]) == if i + 1 < |script| then Some(script[i + 1]) else None
  {
    var id := script[i].id;
    LookupLastWins(script, id);
    assert Lookup(script, id).Some?;
    var k :| 0 <= k < |script| && script[k] == Lookup(script, id).value &&
             forall j :: k < j < |script| ==> script[j].id != id;
    assert script[k].id == id;
    assert k == i;
    var idx := IndexOfNode(script, script[i]);
    assert script[idx].id == id;
    assert idx == i;
  }

  // ---------------------------------------------------------------------------
  // Successors
  // ---------------------------------------------------------------------------

  /**
   * The node after a user node: by branch label when the node has a
   * `branches` key (even an empty one), else the id of the node declared next,
   * or the end of the walk after the last node.
   */
  function UserSuccessor(script: seq<Node>, node: Node, branchLabel: string): Result<Option<string>, ReplayError>
    requires node in script
  {
    if node.branches.Some? then
      match BranchTarget(BranchesOf(node), branchLabel)
      case Some(n) => Ok(Some(n))
      case None => Err(BranchNotFound(branchLabel))
    else
      match DeclaredNext(script, node)
      case Some(n) => Ok(Some(n.id))
      case None => Ok(None)
  }

  /**
   * A user node with a `branches` key goes to the first branch whose condition
   * is the label and fails when there is none, an empty list included; a user
   * node without the key goes to the node declared next, or ends the walk.
   */
  lemma UserSuccessorRoutes(script: seq<Node>, node: Node, branchLabel: string)
    requires node in script
    ensures node.branches.Some? ==>
              (UserSuccessor(script, node, branchLabel) == Err(BranchNotFound(branchLabel)) <==>
               forall j :: 0 <= j < |node.branches.value| ==> node.branches.value[j].condition != branchLabel)
    ensures node.branches == Some([]) ==> UserSuccessor(script, node, branchLabel).Err?
    ensures node.branches.Some? && UserSuccessor(script, node, branchLabel).Ok? ==>
              exists k :: 0 <= k < |node.branches.value| && node.branches.value[k].condition == branchLabel &&
                          UserSuccessor(script, node, branchLabel) == Ok(Some(node.branches.value[k].nextNode)) &&
                          forall j :: 0 <= j < k ==> node.branches.value[j].condition != branchLabel
    ensures node.branches.None? ==>
              UserSuccessor(script, node, branchLabel) ==
              Ok(if IndexOfNode(script, node) + 1 < |script| then Some(script[IndexOfNode(script, node) + 1].id) else None)
  {
    BranchTargetFirstMatch(BranchesOf(node), branchLabel);
  }

  /**
   * The node after an assistant node: the node declared next, provided the
   * node its id maps to is a user node; otherwise the walk ends.  The branch
   * that led to the assistant node plays no part.
   */
  function AssistantSuccessor(script: seq<Node>, node: Node): Option<string>
    requires node in script
  {
    match DeclaredNext(script, node)
    case None => None
    case Some(next) =>
      match Lookup(script, next.id)
      case Some(target) => if target.role == "user" then Some(next.id) else None
      case None => None
  }

  /**
   * After an assistant node the walk goes on only to the node declared next,
   * and only when the node that id names is a user node; otherwise it ends.
   */
  lemma AssistantSuccessorRoutes(script: seq<Node>, node: Node)
    requires node in script
    ensures AssistantSuccessor(script, node).Some? <==>
              IndexOfNode(script, node) + 1 < |script| &&
              Lookup(script, script[IndexOfNode(script, node) + 1].id).Some? &&
              Lookup(script, script[IndexOfNode(script, node) + 1].id).value.role == "user"
    ensures AssistantSuccessor(script, node).Some? ==>
              AssistantSuccessor(script, node).value == script[IndexOfNode(script, node) + 1].id
    ensures UniqueIds(script) ==>
              (AssistantSuccessor(script, node).Some? <==>
               IndexOfNode(script, node) + 1 < |script| && script[IndexOfNode(script, node) + 1].role == "user")
  {
    var i := IndexOfNode(script, node);
    if i + 1 < |script| {
      LookupLastWins(script, script[i + 1].id);
      if UniqueIds(script) {
        UniqueIdsPositional(script, i + 1);
      }
    }
  }

  // ---------------------------------------------------------------------------
  // The walk, as a function
  // ---------------------------------------------------------------------------

  /** What a walk emits: the records in order, the conversation at the end, and how it ended. */
  datatype Trace = Trace(records: seq<TurnRecord>, messages: seq<Message>, outcome: Outcome)

  function Extend(recs: seq<TurnRecord>, t: Trace): Trace {
    Trace(recs + t.records, t.messages, t.outcome)
  }

  lemma ExtendAssoc(a: seq<TurnRecord>, b: seq<TurnRecord>, t: Trace)
    ensures Extend(a, Extend(b, t)) == Extend(a + b, t)
  {
    assert a + (b + t.records) == (a + b) + t.records;
  }

  /**
   * One pass of the loop body on node id `id`: it either stops before writing
   * anything, or writes one record and yields the new conversation and the
   * next node id (`None` to end the walk) or the error `select_branch` raised.
   */
  datatype Visit =
    | Halt(error: ReplayError)
    | Visited(record: TurnRecord, messages: seq<Message>, next: Result<Option<string>, ReplayError>)

  function VisitSpec(script: seq<Node>, branchLabel: string, generate: seq<Message> -> Option<string>,
                     id: string, messages: seq<Message>, turn: nat): Visit
  {
    match Lookup(script, id)
    case None => Halt(NodeNotFound(id))
    case Some(node) =>
      if node.role == "user" then
        if node.content.None? then Halt(MissingContent(node.id))
        else
          Visited(TurnRecord(turn, User, node.content.value, Some(node.id), node.phase),
                  messages + [Message(User, node.content.value)],
                  UserSuccessor(script, node, branchLabel))
      else
        match generate(messages)
        case None => Halt(GenerationFailed(node.id))
        case Some(reply) =>
          Visited(TurnRecord(turn, Assistant, reply, Some(node.id), node.phase),
                  messages + [Message(Assistant, reply)],
                  Ok(AssistantSuccessor(script, node)))
  }

  /** `while current_id:` -- both `None` and the empty id end the walk. */
  predicate Truthy(current: Option<string>) {
    current.Some? && |current.value| > 0
  }

  /** The node walk from `current`, with `turn` as the next turn index and at most `fuel` node visits. */
  function Walk(script: seq<Node>, branchLabel: string, generate: seq<Message> -> Option<string>,
                current: Option<string>, messages: seq<Message>, turn: nat, fuel: nat): Trace
    decreases fuel, 2
  {
    if !Truthy(current) then Trace([], messages, Finished)
    else WalkFrom(script, branchLabel, generate, current.value, messages, turn, fuel)
  }

  /** The walk from node `id`, which has no fuel left to visit it or visits it. */
  function WalkFrom(script: seq<Node>, branchLabel: string, generate: seq<Message> -> Option<string>,
                    id: string, messages: seq<Message>, turn: nat, fuel: nat): Trace
    decreases fuel, 1
  {
    if fuel == 0 then Trace([], messages, FuelExhausted)
    else VisitThenWalk(script, branchLabel, generate, id, messages, turn, fuel)
  }

  /** Visits node `id`, then walks on from the node it leads to. */
  function VisitThenWalk(script: seq<Node>, branchLabel: string, generate: seq<Message> -> Option<string>,
                         id: string, messages: seq<Message>, turn: nat, fuel: nat): Trace
    requires fuel > 0
    decreases fuel, 0
  {
    var v := VisitSpec(script, branchLabel, generate, id, messages, turn);
    if v.Halt? then Trace([], messages, Failed(v.error))
    else if v.next.Err? then Trace([v.record], v.messages, Failed(v.next.error))
    else Extend([v.record], Walk(script, branchLabel, generate, v.next.value, v.messages, turn + 1, fuel - 1))
  }

  /** The walk from a node id is its visit followed by the walk from where the visit leads. */
  lemma WalkVisit(script: seq<Node>, branchLabel: string, generate: seq<Message> -> Option<string>,
                  id: string, messages: seq<Message>, turn: nat, fuel: nat, v: Visit)
    requires |id| > 0 && fuel > 0
    requires v == VisitSpec(script, branchLabel, generate, id, messages, turn)
    ensures Walk(script, branchLabel, generate, Some(id), messages, turn, fuel) ==
            if v.Halt? then Trace([], messages, Failed(v.error))
            else if v.next.Err? then Trace([v.record], v.messages, Failed(v.next.error))
            else Extend([v.record], Walk(script, branchLabel, generate, v.next.value, v.messages, turn + 1, fuel - 1))
  {
    assert Walk(script, branchLabel, generate, Some(id), messages, turn, fuel) ==
           WalkFrom(script, branchLabel, generate, id, messages, turn, fuel);
    assert WalkFrom(script, branchLabel, generate, id, messages, turn, fuel) ==
           VisitThenWalk(script, branchLabel, generate, id, messages, turn, fuel);
  }

  /** Initial messages that start with a system prompt get turn 0 in the transcript. */
  predicate HasSystemPrompt(initial: seq<Message>) {
    |initial| > 0 && initial[0].role == System
  }

  function SystemRecord(initial: seq<Message>): TurnRecord
    requires HasSystemPrompt(initial)
  {
    TurnRecord(0, System, initial[0].content, Some("system"), None)
  }

  /** The whole replay: the optional system turn, then the walk from the entry node. */
  function ReplayTrace(script: seq<Node>, branchLabel: string, generate: seq<Message> -> Option<string>,
                       initial: seq<Message>, fuel: nat): Trace
  {
    if HasSystemPrompt(initial) then
      Extend([SystemRecord(initial)], Walk(script, branchLabel, generate, Some(EntryId), initial, 1, fuel))
    else Walk(script, branchLabel, generate, Some(EntryId), initial, 0, fuel)
  }

  // ---------------------------------------------------------------------------
  // Properties of the walk and of the replay
  // ---------------------------------------------------------------------------

  /** The chat message a record stands for. */
  function MessageOf(r: TurnRecord): Message {
    Message(r.role, r.content)
  }

  function MessagesOf(recs: seq<TurnRecord>): (ms: seq<Message>)
    ensures |ms| == |recs| && forall k :: 0 <= k < |recs| ==> ms[k] == MessageOf(recs[k])
  {
    seq(|recs|, k requires 0 <= k < |recs| => MessageOf(recs[k]))
  }

  /** The conversation before record `k + 1` of `[r] + recs` is `r`'s message then that before record `k` of `recs`. */
  lemma MessagesOfConsPrefix(messages: seq<Message>, r: TurnRecord, recs: seq<TurnRecord>, k: nat)
    requires k <= |recs|
    ensures messages + MessagesOf(([r] + recs)[..k + 1]) == (messages + [MessageOf(r)]) + MessagesOf(recs[..k])
  {
    assert ([r] + recs)[..k + 1] == [r] + recs[..k];
  }

  /**
   * A walk record comes from the node its id names: a user record copies the
   * node's content and phase, an assistant record is made at a non-user node
   * with that node's phase, and no walk record is a system record.
   */
  predicate FromNode(script: seq<Node>, r: TurnRecord) {
    r.nodeId.Some? && Lookup(script, r.nodeId.value).Some? &&
    var node := Lookup(script, r.nodeId.value).value;
    node.id == r.nodeId.value && r.phase == node.phase &&
    match r.role
    case System => false
    case User => node.role == "user" && node.content == Some(r.content)
    case Assistant => node.role != "user"
  }

  /** A walk that is out of ids or out of fuel emits nothing. */
  lemma WalkEnds(script: seq<Node>, branchLabel: string, generate: seq<Message> -> Option<string>,
                 current: Option<string>, messages: seq<Message>, turn: nat, fuel: nat)
    requires !Truthy(current) || fuel == 0
    ensures Walk(script, branchLabel, generate, current, messages, turn, fuel) ==
            Trace([], messages, if Truthy(current) then FuelExhausted else Finished)
  {
    if Truthy(current) {
      assert Walk(script, branchLabel, generate, current, messages, turn, fuel) ==
             WalkFrom(script, branchLabel, generate, current.value, messages, turn, fuel);
    }
  }

  /** The records of a walk carry consecutive turn indices, starting from `turn`. */
  lemma {:induction false} WalkTurnIndices(script: seq<Node>, branchLabel: string, generate: seq<Message> -> Option<string>,
                                           current: Option<string>, messages: seq<Message>, turn: nat, fuel: nat)
    ensures var t := Walk(script, branchLabel, generate, current, messages, turn, fuel);
            forall k :: 0 <= k < |t.records| ==> t.records[k].turnIndex == turn + k
    decreases fuel
  {
    if Truthy(current) && fuel > 0 {
      var v := VisitSpec(script, branchLabel, generate, current.value, messages, turn);
      WalkVisit(script, branchLabel, generate, current.value, messages, turn, fuel, v);
      if v.Visited? && v.next.Ok? {
        WalkTurnIndices(script, branchLabel, generate, v.next.value, v.messages, turn + 1, fuel - 1);
      }
    } else {
      WalkEnds(script, branchLabel, generate, current, messages, turn, fuel);
    }
  }

  /** The conversation grows by exactly one message per record of the walk, in order. */
  lemma {:induction false} WalkMessages(script: seq<Node>, branchLabel: string, generate: seq<Message> -> Option<string>,
                                        current: Option<string>, messages: seq<Message>, turn: nat, fuel: nat)
    ensures var t := Walk(script, branchLabel, generate, current, messages, turn, fuel);
            t.messages == messages + MessagesOf(t.records)
    decreases fuel
  {
    if Truthy(current) && fuel > 0 {
      var v := VisitSpec(script, branchLabel, generate, current.value, messages, turn);
      WalkVisit(script, branchLabel, generate, current.value, messages, turn, fuel, v);
      if v.Visited? {
        assert v.messages == messages + [MessageOf(v.record)];
        if v.next.Ok? {
          var rest := Walk(script, branchLabel, generate, v.next.value, v.messages, turn + 1, fuel - 1);
          WalkMessages(script, branchLabel, generate, v.next.value, v.messages, turn + 1, fuel - 1);
          assert MessagesOf([v.record] + rest.records) == [MessageOf(v.record)] + MessagesOf(rest.records);
        }
      }
    } else {
      WalkEnds(script, branchLabel, generate, current, messages, turn, fuel);
    }
  }

  /** Every record of a walk comes from the node its id names (see `FromNode`). */
  lemma {:induction false} WalkFromNodes(script: seq<Node>, branchLabel: string, generate: seq<Message> -> Option<string>,
                                         current: Option<string>, messages: seq<Message>, turn: nat, fuel: nat)
    ensures var t := Walk(script, branchLabel, generate, current, messages, turn, fuel);
            forall k :: 0 <= k < |t.records| ==> FromNode(script, t.records[k])
    decreases fuel
  {
    if Truthy(current) && fuel > 0 {
      var v := VisitSpec(script, branchLabel, generate, current.value, messages, turn);
      WalkVisit(script, branchLabel, generate, current.value, messages, turn, fuel, v);
      if v.Visited? {
        LookupLastWins(script, current.value);
        assert FromNode(script, v.record);
        if v.next.Ok? {
          WalkFromNodes(script, branchLabel, generate, v.next.value, v.messages, turn + 1, fuel - 1);
        }
      }
    } else {
      WalkEnds(script, branchLabel, generate, current, messages, turn, fuel);
    }
  }

  /** Each assistant record of a walk holds what the model replied to the conversation before it. */
  lemma {:induction false} WalkReplies(script: seq<Node>, branchLabel: string, generate: seq<Message> -> Option<string>,
                                       current: Option<string>, messages: seq<Message>, turn: nat, fuel: nat)
    ensures var t := Walk(script, branchLabel, generate, current, messages, turn, fuel);
            forall k :: 0 <= k < |t.records| && t.records[k].role == Assistant ==>
              generate(messages + MessagesOf(t.records[..k])) == Some(t.records[k].content)
    decreases fuel
  {
    var t := Walk(script, branchLabel, generate, current, messages, turn, fuel);
    if Truthy(current) && fuel > 0 {
      var v := VisitSpec(script, branchLabel, generate, current.value, messages, turn);
      WalkVisit(script, branchLabel, generate, current.value, messages, turn, fuel, v);
      if v.Visited? {
        assert v.record.role == Assistant ==> generate(messages) == Some(v.record.content);
        assert v.messages == messages + [MessageOf(v.record)];
        assert messages + MessagesOf(t.records[..0]) == messages;
        if v.next.Ok? {
          var rest := Walk(script, branchLabel, generate, v.next.value, v.messages, turn + 1, fuel - 1);
          WalkReplies(script, branchLabel, generate, v.next.value, v.messages, turn + 1, fuel - 1);
          forall k | 1 <= k < |t.records| && t.records[k].role == Assistant
            ensures generate(messages + MessagesOf(t.records[..k])) == Some(t.records[k].content)
          {
            assert t.records[k] == rest.records[k - 1];
            MessagesOfConsPrefix(messages, v.record, rest.records, k - 1);
          }
        }
      }
    } else {
      WalkEnds(script, branchLabel, generate, current, messages, turn, fuel);
    }
  }

  /**
   * The first visit of a walk is to the node `current` names: either its
   * record comes first, or the walk stops on it without writing anything --
   * an id missing from the node map, a user node without content, or a
   * failed generation.
   */
  lemma WalkStart(script: seq<Node>, branchLabel: string, generate: seq<Message> -> Option<string>,
                  id: string, messages: seq<Message>, turn: nat, fuel: nat)
    requires |id| > 0 && fuel > 0
    ensures var t := Walk(script, branchLabel, generate, Some(id), messages, turn, fuel);
            (t.records != [] && t.records[0].nodeId == Some(id)) || (t.records == [] && t.outcome.Failed?)
    ensures (forall j :: 0 <= j < |script| ==> script[j].id != id) ==>
              Walk(script, branchLabel, generate, Some(id), messages, turn, fuel) == Trace([], messages, Failed(NodeNotFound(id)))
  {
    var v := VisitSpec(script, branchLabel, generate, id, messages, turn);
    WalkVisit(script, branchLabel, generate, id, messages, turn, fuel, v);
    LookupLastWins(script, id);
  }

  /** Fuel only cuts a walk short: a walk that ends within its fuel ends the same way with more. */
  lemma {:induction false} WalkFuelMonotone(script: seq<Node>, branchLabel: string, generate: seq<Message> -> Option<string>,
                                            current: Option<string>, messages: seq<Message>, turn: nat, fuel: nat, more: nat)
    requires fuel <= more
    requires !Walk(script, branchLabel, generate, current, messages, turn, fuel).outcome.FuelExhausted?
    ensures Walk(script, branchLabel, generate, current, messages, turn, more) ==
            Walk(script, branchLabel, generate, current, messages, turn, fuel)
    decreases fuel
  {
    if Truthy(current) {
      if fuel == 0 {
        WalkEnds(script, branchLabel, generate, current, messages, turn, fuel);
      } else {
        var v := VisitSpec(script, branchLabel, generate, current.value, messages, turn);
        WalkVisit(script, branchLabel, generate, current.value, messages, turn, fuel, v);
        WalkVisit(script, branchLabel, generate, current.value, messages, turn, more, v);
        if v.Visited? && v.next.Ok? {
          WalkFuelMonotone(script, branchLabel, generate, v.next.value, v.messages, turn + 1, fuel - 1, more - 1);
        }
      }
    } else {
      WalkEnds(script, branchLabel, generate, current, messages, turn, fuel);
      WalkEnds(script, branchLabel, generate, current, messages, turn, more);
    }
  }

  /**
   * The transcript of a replay: turn indices run 0, 1, 2, ...; turn 0 is the
   * system record exactly when the conversation opens with a system prompt,
   * and no other record is a system record; the conversation ends as the
   * initial messages followed by one message per walk record.
   */
  lemma ReplayTranscript(script: seq<Node>, branchLabel: string, generate: seq<Message> -> Option<string>,
                         initial: seq<Message>, fuel: nat)
    ensures var t := ReplayTrace(script, branchLabel, generate, initial, fuel);
            (forall k :: 0 <= k < |t.records| ==> t.records[k].turnIndex == k) &&
            (forall k :: 0 <= k < |t.records| ==> (t.records[k].role == System <==> k == 0 && HasSystemPrompt(initial)))
    ensures HasSystemPrompt(initial) ==>
              var t := ReplayTrace(script, branchLabel, generate, initial, fuel);
              t.records != [] && t.records[0] == TurnRecord(0, System, initial[0].content, Some("system"), None)
    ensures var t := ReplayTrace(script, branchLabel, generate, initial, fuel);
            var walked := if HasSystemPrompt(initial) then t.records[1..] else t.records;
            t.messages == initial + MessagesOf(walked)
  {
    var first: nat := if HasSystemPrompt(initial) then 1 else 0;
    var w := Walk(script, branchLabel, generate, Some(EntryId), initial, first, fuel);
    WalkTurnIndices(script, branchLabel, generate, Some(EntryId), initial, first, fuel);
    WalkMessages(script, branchLabel, generate, Some(EntryId), initial, first, fuel);
    WalkFromNodes(script, branchLabel, generate, Some(EntryId), initial, first, fuel);
    assert forall k :: 0 <= k < |w.records| ==> w.records[k].role != System by {
      forall k | 0 <= k < |w.records| ensures w.records[k].role != System {
        assert FromNode(script, w.records[k]);
      }
    }
    if HasSystemPrompt(initial) {
      var t := ReplayTrace(script, branchLabel, generate, initial, fuel);
      assert t.records == [SystemRecord(initial)] + w.records;
      assert t.records[1..] == w.records;
      forall k | 1 <= k < |t.records| ensures t.records[k] == w.records[k - 1] { }
    }
  }

  /**
   * The replay's records as the analysis steps read them back: row `k` has
   * turn index `k`, the record's content, and a role the feature scan reads as
   * "assistant" exactly for the assistant records.
   */
  lemma ReplayRows(script: seq<Node>, branchLabel: string, generate: seq<Message> -> Option<string>,
                   initial: seq<Message>, fuel: nat)
    ensures var t := ReplayTrace(script, branchLabel, generate, initial, fuel);
            forall k :: 0 <= k < |t.records| ==>
              RowOf(t.records[k]).turnIndex == Some(k) &&
              RowOf(t.records[k]).content == t.records[k].content &&
              (RowOf(t.records[k]).role == "assistant" <==> t.records[k].role == Assistant)
  {
    var t := ReplayTrace(script, branchLabel, generate, initial, fuel);
    ReplayTranscript(script, branchLabel, generate, initial, fuel);
    forall k | 0 <= k < |t.records|
      ensures RowOf(t.records[k]).role == "assistant" <==> t.records[k].role == Assistant
    {
      RoleNameAssistant(t.records[k].role);
    }
  }

  /** Only the assistant role is spelled "assistant". */
  lemma RoleNameAssistant(r: Role)
    ensures RoleName(r) == "assistant" <==> r == Assistant
  {
    match r
    case System => assert |RoleName(r)| != |"assistant"|;
    case User => assert |RoleName(r)| != |"assistant"|;
    case Assistant =>
  }

  // ---------------------------------------------------------------------------
  // The transcript file and the replay method
  // ---------------------------------------------------------------------------

  /** transcript.jsonl: an append-only log of turn records. */
  class TranscriptFile {
    ghost var records: seq<TurnRecord>

    constructor ()
      ensures records == []
    {
      records := [];
    }

    /** io.py `append_jsonl`: one more line; earlier lines are untouched. */
    method Append(r: TurnRecord)
      modifies this
      ensures records == old(records) + [r]
    {
      records := records + [r];
    }
  }

  /**
   * The body of the `while current_id` loop of runner.py: look the node up,
   * emit its record (the user's scripted text, or the generated reply) and
   * work out where the walk goes next.
   */
  method VisitNode(script: seq<Node>, branchLabel: string, generate: seq<Message> -> Option<string>,
                   id: string, messages: seq<Message>, turn: nat, log: TranscriptFile)
    returns (v: Visit)
    modifies log
    ensures v == VisitSpec(script, branchLabel, generate, id, messages, turn)
    ensures log.records == old(log.records) + (if v.Visited? then [v.record] else [])
  {
    var found := Lookup(script, id);
    if found.None? {
      return Halt(NodeNotFound(id));
    }
    var node := found.value;
    assert node in script;
    if node.role == "user" {
      if node.content.None? {
        return Halt(MissingContent(node.id));
      }
      var content := node.content.value;
      var rec := TurnRecord(turn, User, content, Some(node.id), node.phase);
      log.Append(rec);
      var next: Result<Option<string>, ReplayError>;
      if node.branches.Some? {
        var selected := SelectBranch(node, branchLabel);
        next := if selected.Ok? then Ok(Some(selected.value)) else Err(selected.error);
      } else {
        var after := DeclaredNext(script, node);
        next := Ok(if after.Some? then Some(after.value.id) else None);
      }
      return Visited(rec, messages + [Message(User, content)], next);
    } else {
      var reply := generate(messages);
      if reply.None? {
        return Halt(GenerationFailed(node.id));
      }
      var rec := TurnRecord(turn, Assistant, reply.value, Some(node.id), node.phase);
      log.Append(rec);
      return Visited(rec, messages + [Message(Assistant, reply.value)], Ok(AssistantSuccessor(script, node)));
    }
  }

  /**
   * The `while current_id` loop of runner.py `replay_tree.solve`.  Every
   * record is appended to `log` as soon as it is made, so on a failure the
   * log keeps the prefix emitted so far; the method returns the failure
   * instead of raising it.
   */
  method RunWalk(script: seq<Node>, branchLabel: string, generate: seq<Message> -> Option<string>,
                 start: seq<Message>, firstTurn: nat, fuel: nat, log: TranscriptFile)
    returns (messages: seq<Message>, outcome: Outcome)
    modifies log
    ensures log.records == old(log.records) + Walk(script, branchLabel, generate, Some(EntryId), start, firstTurn, fuel).records
    ensures messages == Walk(script, branchLabel, generate, Some(EntryId), start, firstTurn, fuel).messages
    ensures outcome == Walk(script, branchLabel, generate, Some(EntryId), start, firstTurn, fuel).outcome
  {
    ghost var base := log.records;
    ghost var spec := Walk(script, branchLabel, generate, Some(EntryId), start, firstTurn, fuel);
    ghost var emitted: seq<TurnRecord> := [];
    messages := start;
    var turn := firstTurn;
    var current: Option<string> := Some(EntryId);
    var f := fuel;
    while Truthy(current)
      invariant log.records == base + emitted
      invariant spec == Extend(emitted, Walk(script, branchLabel, generate, current, messages, turn, f))
      decreases f
    {
      if f == 0 {
        return messages, FuelExhausted;
      }
      var v := VisitNode(script, branchLabel, generate, current.value, messages, turn, log);
      WalkVisit(script, branchLabel, generate, current.value, messages, turn, f, v);
      if v.Halt? {
        return messages, Failed(v.error);
      }
      if v.next.Err? {
        return v.messages, Failed(v.next.error);
      }
      ExtendAssoc(emitted, [v.record], Walk(script, branchLabel, generate, v.next.value, v.messages, turn + 1, f - 1));
      emitted := emitted + [v.record];
      messages := v.messages;
      turn := turn + 1;
      current := v.next.value;
      f := f - 1;
    }
    return messages, Finished;
  }

  /**
   * runner.py `replay_tree.solve`: the system turn, when the conversation
   * starts with a system prompt, then the walk from the entry node.
   */
  method Replay(script: seq<Node>, branchLabel: string, generate: seq<Message> -> Option<string>,
                initial: seq<Message>, fuel: nat, log: TranscriptFile)
    returns (messages: seq<Message>, outcome: Outcome)
    modifies log
    ensures log.records == old(log.records) + ReplayTrace(script, branchLabel, generate, initial, fuel).records
    ensures messages == ReplayTrace(script, branchLabel, generate, initial, fuel).messages
    ensures outcome == ReplayTrace(script, branchLabel, generate, initial, fuel).outcome
  {
    var turn: nat := 0;
    if |initial| > 0 && initial[0].role == System {
      log.Append(TurnRecord(turn, System, initial[0].content, Some("system"), None));
      turn := turn + 1;
    }
    messages, outcome := RunWalk(script, branchLabel, generate, initial, turn, fuel, log);
  }
}

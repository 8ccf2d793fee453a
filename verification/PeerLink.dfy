/** One established link between two nodes: each runs a writer that drains its outgoing queue and a reader that
    either completes a pending request or serves the message (src/node/peer.rs, src/full_node/behavior.rs). */
module PeerLink {
  import opened Base

  type Id = int

  /** The message kinds of the protocol, without their payloads. */
  datatype Command =
    | Connect | AcknowledgeConnection | AcknowledgeConnectionWithFlags | Ping | Pong | GetPeers | SendPeers
    | NewBlock | NewBlockResolved | NewTransaction | NewTransactionResolved
    | GetBlockMetadata | GetBlockMetadataResponse | GetBlockMetadatas | GetBlockMetadatasResponse
    | GetBlock | GetBlockResponse | GetBlockHashes | GetBlockHashesResponse
    | GetTransactionMerkleProof | GetTransactionMerkleProofResponse

  datatype Message = Message(version: nat, id: Id, command: Command)

  const VERSION: nat := 4

  /** `make_response`: own version, the id of the request. */
  function MakeResponse(m: Message, c: Command): Message {
    Message(VERSION, m.id, c)
  }

  /** `on_message` of a full node: the answer, or nothing where the source reports an unhandled message. */
  function OnMessage(m: Message): Option<Message> {
    match m.command
    case Connect =>
      Some(MakeResponse(m, if m.version >= 4 then AcknowledgeConnectionWithFlags else AcknowledgeConnection))
    case Ping => Some(MakeResponse(m, Pong))
    case GetPeers => Some(MakeResponse(m, SendPeers))
    case NewBlock => Some(MakeResponse(m, NewBlockResolved))
    case NewTransaction => Some(MakeResponse(m, NewTransactionResolved))
    case GetBlock => Some(MakeResponse(m, GetBlockResponse))
    case GetBlockHashes => Some(MakeResponse(m, GetBlockHashesResponse))
    case GetTransactionMerkleProof => Some(MakeResponse(m, GetTransactionMerkleProofResponse))
    case GetBlockMetadata => Some(MakeResponse(m, GetBlockMetadataResponse))
    case GetBlockMetadatas => Some(MakeResponse(m, GetBlockMetadatasResponse))
    case _ => None
  }

  predicate IsRequest(c: Command) {
    c in {Connect, Ping, GetPeers, NewBlock, NewTransaction, GetBlock, GetBlockHashes,
          GetTransactionMerkleProof, GetBlockMetadata, GetBlockMetadatas}
  }

  /** Response `m` belongs to request `q`: same id, and the command the protocol pairs with it. */
  predicate Pairs(q: Message, m: Message) {
    && q.id == m.id
    && match q.command
       case Connect => m.command == AcknowledgeConnection || m.command == AcknowledgeConnectionWithFlags
       case Ping => m.command == Pong
       case GetPeers => m.command == SendPeers
       case NewBlock => m.command == NewBlockResolved
       case NewTransaction => m.command == NewTransactionResolved
       case GetBlockMetadata => m.command == GetBlockMetadataResponse
       case GetBlockMetadatas => m.command == GetBlockMetadatasResponse
       case GetBlock => m.command == GetBlockResponse
       case GetBlockHashes => m.command == GetBlockHashesResponse
       case GetTransactionMerkleProof => m.command == GetTransactionMerkleProofResponse
       case _ => false
  }

  /** Requests are exactly what `on_message` answers, and the answer is the paired response. */
  lemma AnswersRequests(m: Message)
    ensures IsRequest(m.command) <==> OnMessage(m).Some?
    ensures OnMessage(m).Some? ==> Pairs(m, OnMessage(m).value) && !IsRequest(OnMessage(m).value.command)
    ensures OnMessage(m).Some? ==> OnMessage(m).value.version == 4
    ensures m.command.Connect? ==> (OnMessage(m).value.command.AcknowledgeConnectionWithFlags? <==> m.version >= 4)
  {
  }

  // ---------- The state of a link ----------

  datatype Outgoing = Request(msg: Message) | OneWay(msg: Message)

  /** `writing` is the message the writer took from its queue and has not sent; `serving` the one the reader
      handed to `on_message`; `issued` and `delivered` the history of requests made and completed, `queued` and `read`
      of all messages put into the queue and taken off the wire. */
  datatype Node = Node(
    queue: seq<Outgoing>, writing: Option<Message>, pending: set<Id>, serving: Option<Message>,
    issued: seq<Message>, delivered: seq<Message>, queued: seq<Message>, read: seq<Message>)

  /** Two nodes and the two directions of the wire between them, each of which holds so many messages at most. */
  datatype Link = Link(a: Node, b: Node, toA: seq<Message>, toB: seq<Message>, capacity: nat)

  const EMPTY: Node := Node([], None, {}, None, [], [], [], [])

  function Start(capacity: nat): Link {
    Link(EMPTY, EMPTY, [], [], capacity)
  }

  /** The same link seen from the other end. */
  function Flip(s: Link): Link {
    Link(s.b, s.a, s.toB, s.toA, s.capacity)
  }

  /** What one node can do: issue a request, let its writer take a message from the queue and send it,
      let its reader take a message off the wire and serve it. */
  datatype Action = Issue(msg: Message) | Take | Send | Read | Serve

  datatype Step = Step(byA: bool, action: Action)

  predicate Unused(s: Link, id: Id) {
    (forall m <- s.a.issued :: m.id != id) && (forall m <- s.b.issued :: m.id != id)
  }

  /** How many messages the outgoing queue of a node holds. */
  const QUEUE_CAPACITY := 64

  /** When node a can act. A node only requests with request commands, under an id new to the link. Whoever puts a
      message into a full queue, a requester or the reader with its answer, waits; and so does the writer before a full
      wire. */
  predicate EnabledA(s: Link, t: Action) {
    match t
    case Issue(msg) => IsRequest(msg.command) && Unused(s, msg.id) && |s.a.queue| < QUEUE_CAPACITY
    case Take => s.a.queue != [] && s.a.writing.None?
    case Send => s.a.writing.Some? && |s.toB| < s.capacity
    case Read => s.toA != [] && s.a.serving.None?
    case Serve => s.a.serving.Some? && |s.a.queue| < QUEUE_CAPACITY
  }

  /** The effect of an action of node a. A message `on_message` does not answer would end the reader;
      here it stays where it is. */
  function ApplyA(s: Link, t: Action): Link
    requires EnabledA(s, t)
  {
    match t
    case Issue(msg) =>
      s.(a := s.a.(queue := s.a.queue + [Request(msg)], issued := s.a.issued + [msg], queued := s.a.queued + [msg]))
    case Take =>
      var o := s.a.queue[0];
      s.(a := s.a.(queue := s.a.queue[1..], writing := Some(o.msg),
                   pending := if o.Request? then s.a.pending + {o.msg.id} else s.a.pending))
    case Send => s.(a := s.a.(writing := None), toB := s.toB + [s.a.writing.value])
    case Read =>
      var m := s.toA[0];
      s.(toA := s.toA[1..],
         a := if m.id in s.a.pending
              then s.a.(pending := s.a.pending - {m.id}, delivered := s.a.delivered + [m], read := s.a.read + [m])
              else s.a.(serving := Some(m), read := s.a.read + [m]))
    case Serve =>
      match OnMessage(s.a.serving.value)
      case None => s
      case Some(response) =>
        s.(a := s.a.(queue := s.a.queue + [OneWay(response)], serving := None, queued := s.a.queued + [response]))
  }

  predicate Enabled(s: Link, t: Step) {
    EnabledA(if t.byA then s else Flip(s), t.action)
  }

  function Apply(s: Link, t: Step): Link
    requires Enabled(s, t)
  {
    if t.byA then ApplyA(s, t.action) else Flip(ApplyA(Flip(s), t.action))
  }

  // ---------- Stages ----------

  function One(m: Message, req: bool, id: Id): nat {
    if m.id == id && IsRequest(m.command) == req then 1 else 0
  }

  function OneOf(m: Option<Message>, req: bool, id: Id): nat {
    if m.Some? then One(m.value, req, id) else 0
  }

  /** How many requests, or responses, under an id a channel holds. */
  function Count(s: seq<Message>, req: bool, id: Id): nat {
    if s == [] then 0 else One(s[0], req, id) + Count(s[1..], req, id)
  }

  function CountQueue(q: seq<Outgoing>, req: bool, id: Id): nat {
    if q == [] then 0 else One(q[0].msg, req, id) + CountQueue(q[1..], req, id)
  }

  /** Where a request of node a can be between being sent and being completed: with its writer, on the wire,
      being served, answered in the peer's queue, with the peer's writer, or on the wire back. */
  function InFlight(s: Link, id: Id): nat {
    OneOf(s.a.writing, true, id) + Count(s.toB, true, id) + OneOf(s.b.serving, true, id)
    + CountQueue(s.b.queue, false, id) + OneOf(s.b.writing, false, id) + Count(s.toA, false, id)
  }

  /** Over all stages a request of node a passes through, how many hold the id. */
  function Stages(s: Link, id: Id): nat {
    CountQueue(s.a.queue, true, id) + InFlight(s, id) + Count(s.a.delivered, false, id)
  }

  // ---------- The invariant ----------

  /** A message on its way to node a is a request its peer issued or a response paired with one of a's own. */
  ghost predicate Proper(s: Link, m: Message) {
    if IsRequest(m.command) then m in s.b.issued else exists q <- s.a.issued :: Pairs(q, m)
  }

  /** Everything node a holds, and everything on the wire towards it, is proper. */
  ghost predicate ProperA(s: Link) {
    && (forall o <- s.a.queue :: Proper(Flip(s), o.msg) && (o.Request? <==> IsRequest(o.msg.command)))
    && (s.a.writing.Some? ==> Proper(Flip(s), s.a.writing.value))
    && (s.a.serving.Some? ==> Proper(s, s.a.serving.value) && IsRequest(s.a.serving.value.command))
    && (forall m <- s.toA :: Proper(s, m))
    && (forall m <- s.a.delivered :: Proper(s, m) && !IsRequest(m.command))
    && (forall q <- s.a.issued :: IsRequest(q.command))
  }

  /** For node a's requests under one id: the stages account for those issued, and pending says in flight. */
  ghost predicate ConservedAt(s: Link, id: Id) {
    && Stages(s, id) == Count(s.a.issued, true, id)
    && (id in s.a.pending <==> InFlight(s, id) > 0)
    && Count(s.a.issued, true, id) + Count(s.b.issued, true, id) <= 1
  }

  ghost predicate Conserved(s: Link) {
    forall id :: ConservedAt(s, id)
  }

  ghost predicate Inv(s: Link) {
    ProperA(s) && ProperA(Flip(s)) && Conserved(s) && Conserved(Flip(s)) && Bounded(s)
  }

  function Held(m: Option<Message>): nat {
    if m.Some? then 1 else 0
  }

  /** How many messages are in a node or on the wire towards it. */
  function LoadA(s: Link): nat {
    |s.a.queue| + Held(s.a.writing) + Held(s.a.serving) + |s.toA|
  }

  /** Requests made and not yet answered, at both ends. */
  function Outstanding(s: Link): int {
    |s.a.issued| - |s.a.delivered| + |s.b.issued| - |s.b.delivered|
  }

  /** No queue and no direction of the wire is over full, and there is one message for each outstanding request. */
  predicate Bounded(s: Link) {
    && s.capacity > 0
    && |s.a.queue| <= QUEUE_CAPACITY && |s.b.queue| <= QUEUE_CAPACITY
    && |s.toA| <= s.capacity && |s.toB| <= s.capacity
    && LoadA(s) + LoadA(Flip(s)) == Outstanding(s)
  }

  // ---------- Counting ----------

  lemma {:induction false} CountSnoc(s: seq<Message>, m: Message, req: bool, id: Id)
    ensures Count(s + [m], req, id) == Count(s, req, id) + One(m, req, id)
  {
    if s == [] {
      assert s + [m] == [m] && [m][1..] == [];
    } else {
      CountSnoc(s[1..], m, req, id);
      assert (s + [m])[1..] == s[1..] + [m];
    }
  }

  lemma {:induction false} CountQueueSnoc(q: seq<Outgoing>, o: Outgoing, req: bool, id: Id)
    ensures CountQueue(q + [o], req, id) == CountQueue(q, req, id) + One(o.msg, req, id)
  {
    if q == [] {
      assert q + [o] == [o] && [o][1..] == [];
    } else {
      CountQueueSnoc(q[1..], o, req, id);
      assert (q + [o])[1..] == q[1..] + [o];
    }
  }

  lemma {:induction false} CountMember(s: seq<Message>, req: bool, id: Id)
    ensures Count(s, req, id) > 0 <==> exists m <- s :: m.id == id && IsRequest(m.command) == req
  {
    if s != [] {
      CountMember(s[1..], req, id);
      assert s == [s[0]] + s[1..];
    }
  }

  /** A request arriving at node a is not pending there, a response is. */
  lemma PendingTells(s: Link)
    requires Inv(s) && s.toA != []
    ensures s.toA[0].id in s.a.pending <==> !IsRequest(s.toA[0].command)
  {
    var m := s.toA[0];
    assert m in s.toA && Proper(s, m);
    assert ConservedAt(s, m.id);
    CountMember(s.b.issued, true, m.id);
  }

  // ---------- Every action keeps the invariant ----------

  lemma IssueCounts(s: Link, msg: Message, id: Id)
    requires Inv(s) && EnabledA(s, Issue(msg))
    ensures ConservedAt(ApplyA(s, Issue(msg)), id) && ConservedAt(Flip(ApplyA(s, Issue(msg))), id)
  {
    assert ConservedAt(s, id) && ConservedAt(Flip(s), id);
    CountQueueSnoc(s.a.queue, Request(msg), true, id);
    CountQueueSnoc(s.a.queue, Request(msg), false, id);
    CountSnoc(s.a.issued, msg, true, id);
    CountMember(s.a.issued, true, id);
    CountMember(s.b.issued, true, id);
  }

  lemma TakeCounts(s: Link, id: Id)
    requires Inv(s) && EnabledA(s, Take)
    ensures ConservedAt(ApplyA(s, Take), id) && ConservedAt(Flip(ApplyA(s, Take)), id)
  {
    assert ConservedAt(s, id) && ConservedAt(Flip(s), id);
    assert s.a.queue[0] in s.a.queue;
  }

  lemma SendCounts(s: Link, id: Id)
    requires Inv(s) && EnabledA(s, Send)
    ensures ConservedAt(ApplyA(s, Send), id) && ConservedAt(Flip(ApplyA(s, Send)), id)
  {
    assert ConservedAt(s, id) && ConservedAt(Flip(s), id);
    CountSnoc(s.toB, s.a.writing.value, true, id);
    CountSnoc(s.toB, s.a.writing.value, false, id);
  }

  lemma ReadCounts(s: Link, id: Id)
    requires Inv(s) && EnabledA(s, Read)
    ensures ConservedAt(ApplyA(s, Read), id) && ConservedAt(Flip(ApplyA(s, Read)), id)
  {
    assert ConservedAt(s, id) && ConservedAt(Flip(s), id);
    PendingTells(s);
    CountSnoc(s.a.delivered, s.toA[0], false, id);
  }

  lemma ServeCounts(s: Link, id: Id)
    requires Inv(s) && EnabledA(s, Serve)
    ensures ConservedAt(ApplyA(s, Serve), id) && ConservedAt(Flip(ApplyA(s, Serve)), id)
  {
    assert ConservedAt(s, id) && ConservedAt(Flip(s), id);
    AnswersRequests(s.a.serving.value);
    var response := OnMessage(s.a.serving.value).value;
    CountQueueSnoc(s.a.queue, OneWay(response), true, id);
    CountQueueSnoc(s.a.queue, OneWay(response), false, id);
  }

  lemma ActionCounts(s: Link, t: Action)
    requires Inv(s) && EnabledA(s, t)
    ensures Conserved(ApplyA(s, t)) && Conserved(Flip(ApplyA(s, t)))
  {
    forall id ensures ConservedAt(ApplyA(s, t), id) && ConservedAt(Flip(ApplyA(s, t)), id) {
      match t
      case Issue(msg) => IssueCounts(s, msg, id);
      case Take => TakeCounts(s, id);
      case Send => SendCounts(s, id);
      case Read => ReadCounts(s, id);
      case Serve => ServeCounts(s, id);
    }
  }

  /** A message stays proper while the histories only grow. */
  lemma StaysProper(s: Link, s': Link, m: Message)
    requires Proper(s, m)
    requires forall q <- s.a.issued :: q in s'.a.issued
    requires forall q <- s.b.issued :: q in s'.b.issued
    ensures Proper(s', m)
  {
    if !IsRequest(m.command) {
      var q :| q in s.a.issued && Pairs(q, m);
      assert q in s'.a.issued;
    }
  }

  lemma ActionProper(s: Link, t: Action)
    requires Inv(s) && EnabledA(s, t)
    ensures ProperA(ApplyA(s, t)) && ProperA(Flip(ApplyA(s, t)))
  {
    var s' := ApplyA(s, t);
    forall m | Proper(s, m) ensures Proper(s', m) {
      StaysProper(s, s', m);
    }
    forall m | Proper(Flip(s), m) ensures Proper(Flip(s'), m) {
      StaysProper(Flip(s), Flip(s'), m);
    }
    match t
    case Issue(msg) => assert msg in s'.a.issued;
    case Take => assert s.a.queue[0] in s.a.queue;
    case Send =>
    case Read =>
      assert s.toA[0] in s.toA;
      PendingTells(s);
    case Serve =>
      AnswersRequests(s.a.serving.value);
  }

  lemma ActionBounded(s: Link, t: Action)
    requires Bounded(s) && EnabledA(s, t)
    ensures Bounded(ApplyA(s, t)) && Bounded(Flip(ApplyA(s, t)))
  {
  }

  lemma StepKeeps(s: Link, t: Step)
    requires Inv(s) && Enabled(s, t)
    ensures Inv(Apply(s, t))
  {
    var here := if t.byA then s else Flip(s);
    assert Flip(Flip(s)) == s;
    ActionCounts(here, t.action);
    ActionProper(here, t.action);
    ActionBounded(here, t.action);
    assert Flip(Flip(ApplyA(here, t.action))) == ApplyA(here, t.action);
  }

  /** `trace` is a run of the link from the start. */
  ghost predicate IsRun(trace: seq<Link>, steps: seq<Step>) {
    && |trace| == |steps| + 1 && trace[0].capacity > 0 && trace[0] == Start(trace[0].capacity)
    && forall k | 0 <= k < |steps| :: Enabled(trace[k], steps[k]) && trace[k + 1] == Apply(trace[k], steps[k])
  }

  lemma {:induction false} RunsKeepInv(trace: seq<Link>, steps: seq<Step>, k: nat)
    requires IsRun(trace, steps) && k < |trace|
    ensures Inv(trace[k])
  {
    if k > 0 {
      RunsKeepInv(trace, steps, k - 1);
      StepKeeps(trace[k - 1], steps[k - 1]);
    }
  }

  // ---------- What the invariant means, stated for node a; flip the link for node b ----------

  /** Every issued id is in exactly one stage, and only issued ids are in any. */
  lemma ExactlyOneStage(s: Link, id: Id)
    requires Inv(s)
    ensures Stages(s, id) == if exists q <- s.a.issued :: q.id == id then 1 else 0
  {
    CountMember(s.a.issued, true, id);
    assert ConservedAt(s, id);
  }

  /** A requester gets at most one response to an id, for a request it made, of the paired kind. */
  lemma DeliveredOncePaired(s: Link, m: Message)
    requires Inv(s) && m in s.a.delivered
    ensures exists q <- s.a.issued :: Pairs(q, m)
    ensures Count(s.a.delivered, false, m.id) == 1 && m.id !in s.a.pending
  {
    assert Proper(s, m) && ConservedAt(s, m.id);
    CountMember(s.a.delivered, false, m.id);
  }

  /** `on_message` is only ever handed requests, so its "unhandled" branches are unreachable. */
  lemma NeverUnhandled(s: Link)
    requires Inv(s) && s.a.serving.Some?
    ensures OnMessage(s.a.serving.value).Some?
  {
    AnswersRequests(s.a.serving.value);
  }

  // ---------- Order ----------

  function MessagesOf(q: seq<Outgoing>): seq<Message> {
    seq(|q|, i requires 0 <= i < |q| => q[i].msg)
  }

  function WritingOf(n: Node): seq<Message> {
    if n.writing.Some? then [n.writing.value] else []
  }

  /** What node b has read, what is on the wire to it, what node a's writer holds and what is in its queue are, one
      after the other, all that node a ever queued, in that order. */
  ghost predicate InOrder(s: Link) {
    s.b.read + s.toB + WritingOf(s.a) + MessagesOf(s.a.queue) == s.a.queued
  }

  lemma Queued(front: seq<Message>, q: seq<Outgoing>, o: Outgoing)
    ensures front + MessagesOf(q + [o]) == front + MessagesOf(q) + [o.msg]
  {
  }

  lemma Taken(front: seq<Message>, q: seq<Outgoing>)
    requires q != []
    ensures front + MessagesOf(q) == front + [q[0].msg] + MessagesOf(q[1..])
  {
  }

  lemma Passed(read: seq<Message>, wire: seq<Message>, rest: seq<Message>)
    requires wire != []
    ensures read + wire + rest == (read + [wire[0]]) + wire[1..] + rest
  {
  }

  lemma Sent(front: seq<Message>, wire: seq<Message>, m: Message, rest: seq<Message>)
    ensures front + wire + [m] + rest == front + (wire + [m]) + [] + rest
  {
  }

  lemma ActionInOrder(s: Link, t: Action)
    requires EnabledA(s, t) && InOrder(s) && InOrder(Flip(s))
    ensures InOrder(ApplyA(s, t)) && InOrder(Flip(ApplyA(s, t)))
  {
    var front := s.b.read + s.toB + WritingOf(s.a);
    match t
    case Issue(msg) => Queued(front, s.a.queue, Request(msg));
    case Take => Taken(s.b.read + s.toB + [], s.a.queue);
    case Send => Sent(s.b.read, s.toB, s.a.writing.value, MessagesOf(s.a.queue));
    case Read => Passed(s.a.read, s.toA, WritingOf(s.b) + MessagesOf(s.b.queue));
    case Serve =>
      if OnMessage(s.a.serving.value).Some? {
        Queued(front, s.a.queue, OneWay(OnMessage(s.a.serving.value).value));
      }
  }

  lemma StepInOrder(s: Link, t: Step)
    requires Enabled(s, t) && InOrder(s) && InOrder(Flip(s))
    ensures InOrder(Apply(s, t)) && InOrder(Flip(Apply(s, t)))
  {
    var here := if t.byA then s else Flip(s);
    assert Flip(Flip(s)) == s;
    ActionInOrder(here, t.action);
    assert Flip(Flip(ApplyA(here, t.action))) == ApplyA(here, t.action);
  }

  /** In every state of every run each end has read a front part of what the other queued, in that order. */
  lemma {:induction false} ReadInOrder(trace: seq<Link>, steps: seq<Step>, k: nat)
    requires IsRun(trace, steps) && k < |trace|
    ensures InOrder(trace[k]) && InOrder(Flip(trace[k]))
    ensures trace[k].b.read <= trace[k].a.queued && trace[k].a.read <= trace[k].b.queued
  {
    if k > 0 {
      ReadInOrder(trace, steps, k - 1);
      StepInOrder(trace[k - 1], steps[k - 1]);
    }
    FrontRead(trace[k]);
    FrontRead(Flip(trace[k]));
  }

  lemma FrontRead(s: Link)
    requires InOrder(s)
    ensures s.b.read <= s.a.queued
  {
    assert s.a.queued == s.b.read + (s.toB + WritingOf(s.a) + MessagesOf(s.a.queue));
  }

  predicate IdleA(s: Link) {
    s.toA == [] && s.a.queue == [] && s.a.writing.None? && s.a.serving.None?
  }

  /** Node a and the wire towards it are full: its writer waits for the other wire, and its reader for its queue. */
  predicate FullA(s: Link) {
    |s.a.queue| == QUEUE_CAPACITY && s.a.writing.Some? && s.a.serving.Some? && |s.toA| == s.capacity
  }

  predicate Stuck(s: Link) {
    FullA(s) && FullA(Flip(s))
  }

  ghost predicate CanMove(s: Link) {
    exists t: Step :: !t.action.Issue? && Enabled(s, t)
  }

  /** No request is lost: some task can move unless both ends are idle or all is full, and once they are idle, every
      request has been answered and nothing is pending. */
  lemma NothingLost(s: Link)
    requires Inv(s)
    ensures CanMove(s) <==> !(IdleA(s) && IdleA(Flip(s))) && !Stuck(s)
    ensures IdleA(s) && IdleA(Flip(s)) ==>
      forall id :: id !in s.a.pending && Count(s.a.delivered, false, id) == Count(s.a.issued, true, id)
  {
    if IdleA(s) && IdleA(Flip(s)) {
      forall id ensures id !in s.a.pending && Count(s.a.delivered, false, id) == Count(s.a.issued, true, id) {
        assert ConservedAt(s, id);
      }
    } else if !Stuck(s) {
      MoverMoves(s);
    }
  }

  /** A task of node a that can move, if one can. */
  function Mover(s: Link): Action {
    if EnabledA(s, Send) then Send
    else if EnabledA(s, Take) then Take
    else if EnabledA(s, Serve) then Serve
    else Read
  }

  lemma MoverMoves(s: Link)
    requires Bounded(s) && !(IdleA(s) && IdleA(Flip(s))) && !Stuck(s)
    ensures Enabled(s, Step(EnabledA(s, Mover(s)), Mover(if EnabledA(s, Mover(s)) then s else Flip(s))))
  {
  }

  /** All is full only under so many outstanding requests: fewer than that never block each other. */
  lemma StuckUnderLoad(s: Link)
    requires Inv(s) && Stuck(s)
    ensures Outstanding(s) == 2 * (66 + s.capacity)
  {
  }

  // ---------- The moves come to an end ----------

  /** How many moves a message has before it at most: a request is answered by a response, which is delivered. */
  function Moves(m: Message, stage: nat): nat {
    if IsRequest(m.command) then 4 + stage else stage
  }

  function MovesOf(m: Option<Message>, stage: nat): nat {
    if m.Some? then Moves(m.value, stage) else 0
  }

  function WireMoves(s: seq<Message>): nat {
    if s == [] then 0 else Moves(s[0], 2) + WireMoves(s[1..])
  }

  function QueueMoves(q: seq<Outgoing>): nat {
    if q == [] then 0 else Moves(q[0].msg, 4) + QueueMoves(q[1..])
  }

  function MovesA(s: Link): nat {
    QueueMoves(s.a.queue) + MovesOf(s.a.writing, 3) + WireMoves(s.toA) + MovesOf(s.a.serving, 1)
  }

  function MovesLeft(s: Link): nat {
    MovesA(s) + MovesA(Flip(s))
  }

  lemma {:induction false} WireMovesSnoc(s: seq<Message>, m: Message)
    ensures WireMoves(s + [m]) == WireMoves(s) + Moves(m, 2)
  {
    if s == [] {
      assert s + [m] == [m] && [m][1..] == [];
    } else {
      WireMovesSnoc(s[1..], m);
      assert (s + [m])[1..] == s[1..] + [m];
    }
  }

  lemma {:induction false} QueueMovesSnoc(q: seq<Outgoing>, o: Outgoing)
    ensures QueueMoves(q + [o]) == QueueMoves(q) + Moves(o.msg, 4)
  {
    if q == [] {
      assert q + [o] == [o] && [o][1..] == [];
    } else {
      QueueMovesSnoc(q[1..], o);
      assert (q + [o])[1..] == q[1..] + [o];
    }
  }

  lemma {:induction false} FewMoves(s: Link)
    ensures MovesA(s) <= 8 * LoadA(s)
  {
    WireMovesFew(s.toA);
    QueueMovesFew(s.a.queue);
  }

  lemma {:induction false} WireMovesFew(s: seq<Message>)
    ensures WireMoves(s) <= 8 * |s|
  {
    if s != [] {
      WireMovesFew(s[1..]);
    }
  }

  lemma {:induction false} QueueMovesFew(q: seq<Outgoing>)
    ensures QueueMoves(q) <= 8 * |q|
  {
    if q != [] {
      QueueMovesFew(q[1..]);
    }
  }

  lemma ActionMoves(s: Link, t: Action)
    requires Inv(s) && EnabledA(s, t) && !t.Issue?
    ensures MovesLeft(ApplyA(s, t)) < MovesLeft(s) && Outstanding(ApplyA(s, t)) <= Outstanding(s)
  {
    match t
    case Take =>
    case Send => WireMovesSnoc(s.toB, s.a.writing.value);
    case Read => PendingTells(s);
    case Serve =>
      AnswersRequests(s.a.serving.value);
      QueueMovesSnoc(s.a.queue, OneWay(OnMessage(s.a.serving.value).value));
  }

  lemma StepMoves(s: Link, t: Step)
    requires Inv(s) && Enabled(s, t) && !t.action.Issue?
    ensures MovesLeft(Apply(s, t)) < MovesLeft(s) && Outstanding(Apply(s, t)) <= Outstanding(s)
  {
    var here := if t.byA then s else Flip(s);
    StepKeeps(s, t);
    assert Flip(Flip(s)) == s && Inv(here);
    ActionMoves(here, t.action);
    assert Flip(Flip(ApplyA(here, t.action))) == ApplyA(here, t.action);
  }

  /** The steps can be taken one after the other, and lead from `s` to `now`. */
  ghost predicate Leads(s: Link, steps: seq<Step>, now: Link)
    decreases |steps|
  {
    if steps == [] then s == now
    else Enabled(s, steps[0]) && Leads(Apply(s, steps[0]), steps[1..], now)
  }

  ghost predicate NoneIssued(steps: seq<Step>) {
    forall t <- steps :: !t.action.Issue?
  }

  /** Without new requests every run is short: eight moves for each outstanding request. */
  lemma {:induction false} RunsEnd(s: Link, steps: seq<Step>, now: Link)
    requires Inv(s) && Leads(s, steps, now) && NoneIssued(steps)
    ensures Inv(now) && |steps| + MovesLeft(now) <= MovesLeft(s) <= 8 * Outstanding(s)
    ensures Outstanding(now) <= Outstanding(s)
    decreases |steps|
  {
    FewMoves(s);
    FewMoves(Flip(s));
    if steps != [] {
      assert steps[0] in steps;
      StepKeeps(s, steps[0]);
      StepMoves(s, steps[0]);
      RunsEnd(Apply(s, steps[0]), steps[1..], now);
    }
  }

  /** So however the tasks are scheduled, without new requests the link comes to rest within eight moves for each
      outstanding one; and if those are too few to fill it, it rests idle, with every request answered. */
  lemma FallsIdle(s: Link, steps: seq<Step>, now: Link)
    requires Inv(s) && Leads(s, steps, now) && NoneIssued(steps)
    ensures |steps| <= 8 * Outstanding(s)
    ensures !CanMove(now) <==> (IdleA(now) && IdleA(Flip(now))) || Stuck(now)
    ensures !CanMove(now) && Outstanding(s) < 2 * (66 + now.capacity) ==>
      && IdleA(now) && IdleA(Flip(now))
      && (forall id :: id !in now.a.pending && Count(now.a.delivered, false, id) == Count(now.a.issued, true, id))
      && (forall id :: id !in now.b.pending && Count(now.b.delivered, false, id) == Count(now.b.issued, true, id))
  {
    RunsEnd(s, steps, now);
    NothingLost(now);
    assert Flip(Flip(now)) == now && Inv(Flip(now));
    NothingLost(Flip(now));
    if Stuck(now) {
      StuckUnderLoad(now);
    }
  }

  // ---------- A link that is asked for too much at once gets stuck ----------

  lemma {:induction false} LeadsOn(s: Link, steps: seq<Step>, mid: Link, more: seq<Step>, now: Link)
    requires Leads(s, steps, mid) && Leads(mid, more, now)
    ensures Leads(s, steps + more, now)
    decreases |steps|
  {
    if steps == [] {
      assert steps + more == more;
    } else {
      assert (steps + more)[0] == steps[0] && (steps + more)[1..] == steps[1..] + more;
      LeadsOn(Apply(s, steps[0]), steps[1..], mid, more, now);
    }
  }

  function Flipped(steps: seq<Step>): seq<Step> {
    seq(|steps|, i requires 0 <= i < |steps| => Step(!steps[i].byA, steps[i].action))
  }

  lemma {:induction false} LeadsFlipped(s: Link, steps: seq<Step>, now: Link)
    requires Leads(s, steps, now)
    ensures Leads(Flip(s), Flipped(steps), Flip(now))
    decreases |steps|
  {
    if steps != [] {
      assert Flip(Flip(s)) == s && Flipped(steps)[1..] == Flipped(steps[1..]);
      assert Apply(Flip(s), Flipped(steps)[0]) == Flip(Apply(s, steps[0]));
      LeadsFlipped(Apply(s, steps[0]), steps[1..], now);
    }
  }

  lemma LeadsBy(s: Link, t: Step, now: Link)
    requires Enabled(s, t) && Apply(s, t) == now
    ensures Leads(s, [t], now)
  {
    assert [t][1..] == [];
    assert Leads(now, [], now);
  }

  /** Ids from `n` on are new to the link. */
  ghost predicate NewFrom(s: Link, n: Id) {
    && (forall m <- s.a.issued :: m.id < n) && (forall m <- s.b.issued :: m.id < n)
    && (forall id <- s.a.pending :: id < n) && (forall id <- s.b.pending :: id < n)
  }

  /** What node b does by itself is as it was, and so is what is on the wire to node a. */
  predicate OtherSame(s: Link, now: Link) {
    && now.b == s.b.(serving := now.b.serving, read := now.b.read) && now.toA == s.toA && now.a.serving == s.a.serving
    && now.capacity == s.capacity
  }

  /** Node a's writer has nothing to do, and what is on the wire is not what node b waits for. */
  ghost predicate Resting(s: Link) {
    s.a.queue == [] && s.a.writing.None? && forall m <- s.toB :: m.id !in s.b.pending
  }

  /** A request goes onto the wire. */
  lemma SendOne(s: Link, n: Id) returns (steps: seq<Step>, now: Link)
    requires Resting(s) && NewFrom(s, n) && |s.toB| < s.capacity
    ensures Leads(s, steps, now) && Resting(now) && NewFrom(now, n + 1) && OtherSame(s, now)
    ensures |now.toB| == |s.toB| + 1 && now.b == s.b
  {
    var ping := Message(VERSION, n, Ping);
    var issue, take, send := Step(true, Issue(ping)), Step(true, Take), Step(true, Send);
    var s1 := Apply(s, issue);
    var s2 := Apply(s1, take);
    now := Apply(s2, send);
    LeadsBy(s, issue, s1);
    LeadsBy(s1, take, s2);
    LeadsBy(s2, send, now);
    LeadsOn(s, [issue], s1, [take], s2);
    LeadsOn(s, [issue] + [take], s2, [send], now);
    steps := [issue] + [take] + [send];
  }

  lemma {:induction false} FillWire(s: Link, n: Id) returns (steps: seq<Step>, now: Link, next: Id)
    requires Resting(s) && NewFrom(s, n) && |s.toB| <= s.capacity
    ensures Leads(s, steps, now) && Resting(now) && NewFrom(now, next) && OtherSame(s, now)
    ensures |now.toB| == now.capacity && now.b == s.b
    decreases s.capacity - |s.toB|
  {
    if |s.toB| == s.capacity {
      steps, now, next := [], s, n;
    } else {
      var first, mid := SendOne(s, n);
      var rest;
      rest, now, next := FillWire(mid, n + 1);
      LeadsOn(s, first, mid, rest, now);
      steps := first + rest;
    }
  }

  lemma {:induction false} FillQueue(s: Link, n: Id) returns (steps: seq<Step>, now: Link, next: Id)
    requires NewFrom(s, n) && |s.a.queue| <= QUEUE_CAPACITY
    ensures Leads(s, steps, now) && NewFrom(now, next) && OtherSame(s, now)
    ensures |now.a.queue| == QUEUE_CAPACITY && now.b == s.b && now.toB == s.toB && now.a.writing == s.a.writing
    decreases QUEUE_CAPACITY - |s.a.queue|
  {
    if |s.a.queue| == QUEUE_CAPACITY {
      steps, now, next := [], s, n;
    } else {
      var issue := Step(true, Issue(Message(VERSION, n, Ping)));
      var mid := Apply(s, issue);
      LeadsBy(s, issue, mid);
      var rest;
      rest, now, next := FillQueue(mid, n + 1);
      LeadsOn(s, [issue], mid, rest, now);
      steps := [issue] + rest;
    }
  }

  /** Node b takes a request off the wire and has it to serve. */
  lemma ServeOne(s: Link, n: Id) returns (steps: seq<Step>, now: Link)
    requires Resting(s) && NewFrom(s, n) && s.toB == [] && s.b.serving.None? && s.capacity > 0
    ensures Leads(s, steps, now) && Resting(now) && NewFrom(now, n + 1) && OtherSame(s, now)
    ensures now.toB == [] && now.b.serving.Some?
  {
    var first, mid := SendOne(s, n);
    var read := Step(false, Read);
    assert mid.toB[0] in mid.toB;
    now := Apply(mid, read);
    LeadsBy(mid, read, now);
    LeadsOn(s, first, mid, [read], now);
    steps := first + [read];
  }

  /** Node a's writer takes a request that it cannot send. */
  lemma HoldOne(s: Link, n: Id) returns (steps: seq<Step>, now: Link)
    requires Resting(s) && NewFrom(s, n)
    ensures Leads(s, steps, now) && NewFrom(now, n + 1) && OtherSame(s, now) && now.b == s.b
    ensures now.a.queue == [] && now.a.writing.Some? && now.toB == s.toB
  {
    var issue, take := Step(true, Issue(Message(VERSION, n, Ping))), Step(true, Take);
    var mid := Apply(s, issue);
    now := Apply(mid, take);
    LeadsBy(s, issue, mid);
    LeadsBy(mid, take, now);
    LeadsOn(s, [issue], mid, [take], now);
    steps := [issue] + [take];
  }

  /** Node a asks until node b serves one request, the wire is full, the writer holds one and the queue is full. */
  lemma Ask(s: Link, n: Id) returns (steps: seq<Step>, now: Link, next: Id)
    requires Resting(s) && NewFrom(s, n) && s.toB == [] && s.b.serving.None? && s.capacity > 0
    ensures Leads(s, steps, now) && NewFrom(now, next) && OtherSame(s, now)
    ensures |now.a.queue| == QUEUE_CAPACITY && now.a.writing.Some?
    ensures |now.toB| == now.capacity && now.b.serving.Some?
  {
    var serve, s1 := ServeOne(s, n);
    var fill, s2, n2 := FillWire(s1, n + 1);
    var hold, s3 := HoldOne(s2, n2);
    var rest;
    rest, now, next := FillQueue(s3, n2 + 1);
    LeadsOn(s, serve, s1, fill, s2);
    LeadsOn(s, serve + fill, s2, hold, s3);
    LeadsOn(s, serve + fill + hold, s3, rest, now);
    steps := serve + fill + hold + rest;
  }

  /** It does happen, whatever the capacity of the wire: both ends ask, and neither takes a response any more. */
  lemma GetsStuck(capacity: nat) returns (steps: seq<Step>, now: Link)
    requires capacity > 0
    ensures Leads(Start(capacity), steps, now) && Stuck(now) && !CanMove(now)
  {
    var ours, mid, n := Ask(Start(capacity), 0);
    var theirs, other, n' := Ask(Flip(mid), n);
    LeadsFlipped(Flip(mid), theirs, other);
    now := Flip(other);
    assert Flip(Flip(mid)) == mid;
    LeadsOn(Start(capacity), ours, mid, Flipped(theirs), now);
    steps := ours + Flipped(theirs);
  }

  /** All of it in every state of every run, at either end. */
  lemma EveryRun(trace: seq<Link>, steps: seq<Step>, k: nat, byA: bool, id: Id)
    requires IsRun(trace, steps) && k < |trace|
    ensures var s := if byA then trace[k] else Flip(trace[k]);
      && Inv(s)
      && Stages(s, id) == (if exists q <- s.a.issued :: q.id == id then 1 else 0)
      && (forall m <- s.a.delivered :: exists q <- s.a.issued :: Pairs(q, m))
      && (s.a.serving.Some? ==> OnMessage(s.a.serving.value).Some?)
  {
    RunsKeepInv(trace, steps, k);
    var s := if byA then trace[k] else Flip(trace[k]);
    assert Flip(Flip(trace[k])) == trace[k];
    ExactlyOneStage(s, id);
    forall m | m in s.a.delivered ensures exists q <- s.a.issued :: Pairs(q, m) {
      DeliveredOncePaired(s, m);
    }
    if s.a.serving.Some? {
      NeverUnhandled(s);
    }
  }
}

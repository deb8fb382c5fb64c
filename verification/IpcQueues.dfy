/**
  Message queues: a table of reusable slots, in which a queue's id is its slot's number plus one, and a
  bounded first-in first-out list of messages in each queue.
*/
module IpcQueues {
  import opened Options

  const MAX_MESSAGE_SIZE := 1024
  const MAX_MESSAGES_PER_QUEUE := 64

  datatype Message = Message(sender: int, timestamp: nat, data: seq<bv8>)
  datatype Queue = Queue(owner: int, name: string, pending: seq<Message>)
  type Slots = seq<Option<Queue>>

  // ---------------------------------------------------------------- the table

  /** The lowest slot holding a queue of this name, or the number of slots. */
  function NameSlot(slots: Slots, name: string): (i: nat)
    ensures i <= |slots|
    ensures i < |slots| ==> slots[i].Some? && slots[i].value.name == name
    ensures forall k | 0 <= k < i :: slots[k].Some? ==> slots[k].value.name != name
  {
    if slots == [] || (slots[0].Some? && slots[0].value.name == name) then 0 else 1 + NameSlot(slots[1..], name)
  }

  /** The lowest free slot, or the number of slots. */
  function FreeSlot(slots: Slots): (i: nat)
    ensures i <= |slots| && (i < |slots| ==> slots[i].None?)
    ensures forall k | 0 <= k < i :: slots[k].Some?
  {
    if slots == [] || slots[0].None? then 0 else 1 + FreeSlot(slots[1..])
  }

  predicate IsLive(slots: Slots, id: int) { 0 < id <= |slots| && slots[id - 1].Some? }

  /** The slots after a create; unchanged if the name is taken. */
  function Created(slots: Slots, owner: int, name: string): Slots {
    var i, q := FreeSlot(slots), Some(Queue(owner, name, []));
    if NameSlot(slots, name) < |slots| then slots else if i < |slots| then slots[i := q] else slots + [q]
  }

  function CreatedId(slots: Slots, name: string): int {
    if NameSlot(slots, name) < |slots| then -1 else FreeSlot(slots) + 1
  }

  function Destroyed(slots: Slots, id: int): Slots { if IsLive(slots, id) then slots[id - 1 := None] else slots }

  function Opened(slots: Slots, name: string): int {
    var i := NameSlot(slots, name);
    if i < |slots| then i + 1 else -1
  }

  // ---------------------------------------------------------------- messages

  /** A send is accepted when the queue is live, not full, and the message not too long. */
  predicate Accepts(slots: Slots, id: int, data: seq<bv8>) {
    IsLive(slots, id) && |slots[id - 1].value.pending| < MAX_MESSAGES_PER_QUEUE && |data| <= MAX_MESSAGE_SIZE
  }

  function SetPending(slots: Slots, id: int, pending: seq<Message>): Slots
    requires IsLive(slots, id)
  {
    slots[id - 1 := Some(slots[id - 1].value.(pending := pending))]
  }

  function Pending(slots: Slots, id: int): seq<Message> {
    if IsLive(slots, id) then slots[id - 1].value.pending else []
  }

  function Sent(slots: Slots, id: int, m: Message): Slots {
    if Accepts(slots, id, m.data) then SetPending(slots, id, Pending(slots, id) + [m]) else slots
  }

  function Received(slots: Slots, id: int): Slots {
    if Pending(slots, id) != [] then SetPending(slots, id, Pending(slots, id)[1..]) else slots
  }

  // ---------------------------------------------------------------- every run

  ghost predicate NamesDistinct(slots: Slots) {
    forall i, j | 0 <= i < j < |slots| && slots[i].Some? && slots[j].Some? :: slots[i].value.name != slots[j].value.name
  }

  ghost predicate Bounded(slots: Slots) {
    forall i | 0 <= i < |slots| && slots[i].Some? :: QueueBounded(slots[i].value)
  }

  datatype Op =
    | Create(owner: int, name: string) | Destroy(id: int)
    | Send(id: int, message: Message) | Receive(id: int)

  function Step(slots: Slots, op: Op): Slots {
    match op
    case Create(owner, name) => Created(slots, owner, name)
    case Destroy(id) => Destroyed(slots, id)
    case Send(id, m) => Sent(slots, id, m)
    case Receive(id) => Received(slots, id)
  }

  function Run(slots: Slots, ops: seq<Op>): Slots
    decreases |ops|
  {
    if ops == [] then slots else Run(Step(slots, ops[0]), ops[1..])
  }

  ghost predicate QueueBounded(q: Queue) {
    && |q.pending| <= MAX_MESSAGES_PER_QUEUE
    && forall k | 0 <= k < |q.pending| :: |q.pending[k].data| <= MAX_MESSAGE_SIZE
  }

  /** A queue put into one slot. */
  lemma PlaceKeeps(slots: Slots, i: nat, q: Queue)
    requires NamesDistinct(slots) && Bounded(slots) && i <= |slots| && QueueBounded(q)
    requires forall k | 0 <= k < |slots| && k != i && slots[k].Some? :: slots[k].value.name != q.name
    ensures i < |slots| ==> NamesDistinct(slots[i := Some(q)]) && Bounded(slots[i := Some(q)])
    ensures i == |slots| ==> NamesDistinct(slots + [Some(q)]) && Bounded(slots + [Some(q)])
  {}

  lemma CreateKeeps(slots: Slots, owner: int, name: string)
    requires NamesDistinct(slots) && Bounded(slots)
    ensures NamesDistinct(Created(slots, owner, name)) && Bounded(Created(slots, owner, name))
  {
    if NameSlot(slots, name) == |slots| { PlaceKeeps(slots, FreeSlot(slots), Queue(owner, name, [])); }
  }

  lemma DestroyKeeps(slots: Slots, id: int)
    requires NamesDistinct(slots) && Bounded(slots)
    ensures NamesDistinct(Destroyed(slots, id)) && Bounded(Destroyed(slots, id))
  {}

  lemma SendKeeps(slots: Slots, id: int, m: Message)
    requires NamesDistinct(slots) && Bounded(slots)
    ensures NamesDistinct(Sent(slots, id, m)) && Bounded(Sent(slots, id, m))
  {
    if Accepts(slots, id, m.data) {
      PlaceKeeps(slots, id - 1, slots[id - 1].value.(pending := Pending(slots, id) + [m]));
    }
  }

  lemma ReceiveKeeps(slots: Slots, id: int)
    requires NamesDistinct(slots) && Bounded(slots)
    ensures NamesDistinct(Received(slots, id)) && Bounded(Received(slots, id))
  {
    if Pending(slots, id) != [] {
      PlaceKeeps(slots, id - 1, slots[id - 1].value.(pending := Pending(slots, id)[1..]));
    }
  }

  lemma StepKeeps(slots: Slots, op: Op)
    requires NamesDistinct(slots) && Bounded(slots)
    ensures NamesDistinct(Step(slots, op)) && Bounded(Step(slots, op))
  {
    match op
    case Create(owner, name) => CreateKeeps(slots, owner, name);
    case Destroy(id) => DestroyKeeps(slots, id);
    case Send(id, m) => SendKeeps(slots, id, m);
    case Receive(id) => ReceiveKeeps(slots, id);
  }

  /** In every run live names are pairwise distinct, and no queue holds more than 64 messages of 1024 bytes. */
  lemma {:induction false} RunKeeps(slots: Slots, ops: seq<Op>)
    requires NamesDistinct(slots) && Bounded(slots)
    ensures NamesDistinct(Run(slots, ops)) && Bounded(Run(slots, ops))
    decreases |ops|
  {
    if ops != [] {
      StepKeeps(slots, ops[0]);
      RunKeeps(Step(slots, ops[0]), ops[1..]);
    }
  }

  /** The message that an operation puts into queue `id`, if any. */
  function Put(slots: Slots, op: Op, id: int): seq<Message> {
    if op.Send? && op.id == id && Accepts(slots, id, op.message.data) then [op.message] else []
  }

  /** The message that an operation returns from queue `id`, if any. */
  function Taken(slots: Slots, op: Op, id: int): seq<Message> {
    if op == Receive(id) && Pending(slots, id) != [] then [Pending(slots, id)[0]] else []
  }

  /** The messages that queue `id` accepts during a run, in order. */
  function AcceptedIn(slots: Slots, ops: seq<Op>, id: int): seq<Message>
    decreases |ops|
  {
    if ops == [] then []
    else Put(slots, ops[0], id) + AcceptedIn(Step(slots, ops[0]), ops[1..], id)
  }

  /** The messages that receives on queue `id` return during a run, in order. */
  function ReceivedIn(slots: Slots, ops: seq<Op>, id: int): seq<Message>
    decreases |ops|
  {
    if ops == [] then []
    else Taken(slots, ops[0], id) + ReceivedIn(Step(slots, ops[0]), ops[1..], id)
  }

  /**
    First in, first out, over every run in which a live queue is not destroyed, whatever happens to the others:
    what is received, followed by what is still pending, is what was pending followed by what was accepted.
  */
  lemma {:induction false} Fifo(slots: Slots, ops: seq<Op>, id: int)
    requires IsLive(slots, id) && forall k | 0 <= k < |ops| :: ops[k] != Destroy(id)
    ensures IsLive(Run(slots, ops), id)
    ensures ReceivedIn(slots, ops, id) + Pending(Run(slots, ops), id) == Pending(slots, id) + AcceptedIn(slots, ops, id)
    decreases |ops|
  {
    if ops != [] {
      var next, rest := Step(slots, ops[0]), ops[1..];
      StepIsFifo(slots, ops[0], id);
      Fifo(next, rest, id);
      Reassociate(Taken(slots, ops[0], id), ReceivedIn(next, rest, id), Pending(Run(next, rest), id), Pending(next, id),
                  AcceptedIn(next, rest, id), Pending(slots, id), Put(slots, ops[0], id));
    }
  }

  lemma Reassociate<T>(got: seq<T>, gots: seq<T>, last: seq<T>, mid: seq<T>, puts: seq<T>, first: seq<T>, put: seq<T>)
    requires gots + last == mid + puts && got + mid == first + put
    ensures (got + gots) + last == first + (put + puts)
  {
    assert (got + gots) + last == got + (gots + last) == (got + mid) + puts;
  }

  /** An operation on another queue. */
  lemma OthersKeepQueue(slots: Slots, op: Op, id: int)
    requires IsLive(slots, id) && (op.Create? || op.id != id)
    ensures IsLive(Step(slots, op), id) && Step(slots, op)[id - 1] == slots[id - 1]
  {
    if op.Create? { assert FreeSlot(slots) != id - 1; }
  }

  lemma SendIsFifo(slots: Slots, id: int, m: Message)
    requires IsLive(slots, id)
    ensures IsLive(Sent(slots, id, m), id)
    ensures Pending(Sent(slots, id, m), id) == Pending(slots, id) + Put(slots, Send(id, m), id)
  {}

  lemma ReceiveIsFifo(slots: Slots, id: int)
    requires IsLive(slots, id)
    ensures IsLive(Received(slots, id), id)
    ensures Taken(slots, Receive(id), id) + Pending(Received(slots, id), id) == Pending(slots, id)
  {}

  lemma StepIsFifo(slots: Slots, op: Op, id: int)
    requires IsLive(slots, id) && op != Destroy(id)
    ensures IsLive(Step(slots, op), id)
    ensures Taken(slots, op, id) + Pending(Step(slots, op), id) == Pending(slots, id) + Put(slots, op, id)
  {
    if op.Create? || op.id != id {
      OthersKeepQueue(slots, op, id);
    } else if op.Send? {
      SendIsFifo(slots, id, op.message);
    } else {
      ReceiveIsFifo(slots, id);
    }
  }

  // ---------------------------------------------------------------- open and create

  /** Open finds exactly the live queue of that name: it inverts the naming of live queues. */
  lemma OpenFindsLive(slots: Slots, name: string, id: int)
    requires NamesDistinct(slots)
    ensures Opened(slots, name) == id && id != -1 <==> IsLive(slots, id) && slots[id - 1].value.name == name
    ensures Opened(slots, name) == -1 <==> forall k | 0 <= k < |slots| && slots[k].Some? :: slots[k].value.name != name
  {
  }

  /** A destroyed queue is not live, whatever was pending in it; its name opens nothing, and it takes and gives no
      message. Every other queue is as it was. */
  lemma DestroyedIsGone(slots: Slots, id: int, other: int, data: seq<bv8>)
    requires NamesDistinct(slots) && IsLive(slots, id)
    ensures var t := Destroyed(slots, id);
      && !IsLive(t, id) && Pending(t, id) == [] && !Accepts(t, id, data) && Opened(t, slots[id - 1].value.name) == -1
      && |t| == |slots| && (other != id ==> (IsLive(t, other) <==> IsLive(slots, other)))
      && (other != id && IsLive(slots, other) ==> t[other - 1] == slots[other - 1])
  {}

  /** A name's slot when another slot changes to a queue of another name. */
  lemma OtherNameStays(slots: Slots, t: Slots, i: nat, other: string)
    requires i < |t| && |slots| <= |t| && (i < |slots| ==> slots[i].None?) &&
        (|t| > |slots| ==> |t| == |slots| + 1 == i + 1)
    requires forall k | 0 <= k < |slots| && k != i :: t[k] == slots[k]
    requires t[i].Some? && t[i].value.name != other
    ensures Opened(t, other) == Opened(slots, other)
  {
    var o, o' := NameSlot(slots, other), NameSlot(t, other);
    assert o < |slots| ==> t[o] == slots[o];
    assert o' < |t| ==> o' != i && o' < |slots| && slots[o'] == t[o'];
  }

  /**
    Create fails exactly when the name is live. Otherwise it takes the lowest free id, opening the name gives
    that id, every other name opens as before, and destroying the id leaves the same live queues.
  */
  lemma CreateThenOpen(slots: Slots, owner: int, name: string, other: string)
    requires NamesDistinct(slots)
    ensures var t, id := Created(slots, owner, name), CreatedId(slots, name);
      && (id == -1 <==> Opened(slots, name) != -1)
      && (id == -1 ==> t == slots)
      && (id != -1 ==>
           && !IsLive(slots, id) && (forall k | 0 < k < id :: IsLive(slots, k))
           && t[id - 1] == Some(Queue(owner, name, [])) && Opened(t, name) == id
           && (other != name ==> Opened(t, other) == Opened(slots, other))
           && Destroyed(t, id) == (if id <= |slots| then slots else slots + [None]))
  {
    var t, id := Created(slots, owner, name), CreatedId(slots, name);
    if id != -1 {
      OpenCreated(slots, t, id - 1, name);
      if other != name { OtherNameStays(slots, t, id - 1, other); }
    }
  }

  lemma OpenCreated(slots: Slots, t: Slots, i: nat, name: string)
    requires i < |t| && t[i].Some? && t[i].value.name == name && NameSlot(slots, name) == |slots| && i <= |slots|
    requires forall k | 0 <= k < i :: t[k] == slots[k]
    ensures Opened(t, name) == i + 1
  {
    assert forall k | 0 <= k < i :: slots[k].Some? ==> slots[k].value.name != name;
  }

  // ---------------------------------------------------------------- the queues in place

  class MessageQueue {
    const owner: int
    const name: string
    var messages: seq<Message>

    constructor (owner: int, name: string)
      ensures this.owner == owner && this.name == name && messages == []
    {
      this.owner, this.name, messages := owner, name, [];
    }

    method SendMessage(m: Message) returns (ok: bool)
      modifies this
      ensures ok <==> |old(messages)| < 64 && |m.data| <= 1024
      ensures messages == if ok then old(messages) + [m] else old(messages)
    {
      if |messages| >= MAX_MESSAGES_PER_QUEUE || |m.data| > MAX_MESSAGE_SIZE { return false; }
      messages := messages + [m];
      return true;
    }

    /** Take the oldest message, shifting the others down; without waiting when there is none. */
    method ReceiveMessage() returns (m: Option<Message>)
      modifies this
      ensures old(messages) == [] ==> m == None && messages == []
      ensures old(messages) != [] ==> m == Some(old(messages)[0]) && messages == old(messages)[1..]
    {
      if |messages| == 0 { return None; }
      m := Some(messages[0]);
      var ms, i := messages, 0;
      while i < |ms| - 1
        invariant 0 <= i <= |messages| - 1 && |ms| == |messages|
        invariant forall k | 0 <= k < i :: ms[k] == messages[1..][k]
        invariant forall k | i <= k < |ms| :: ms[k] == messages[k]
      {
        assert messages[1..][i] == ms[i + 1];
        ms := ms[i := ms[i + 1]];
        i := i + 1;
      }
      messages := ms[..|ms| - 1];
    }
  }

  class IpcManager {
    var queues: seq<MessageQueue?>
    var nextId: int
    ghost var slots: Slots
    ghost var objects: set<MessageQueue>

    ghost predicate Valid()
      reads this, objects
    {
      && nextId == |queues| + 1 && |slots| == |queues|
      && (forall i | 0 <= i < |queues| :: queues[i] == null <==> slots[i] == None)
      && (forall i | 0 <= i < |queues| && queues[i] != null ::
           queues[i] in objects && slots[i].value == Queue(queues[i].owner, queues[i].name, queues[i].messages))
      && (forall i, j | 0 <= i < j < |queues| && queues[i] != null :: queues[i] != queues[j])
      && NamesDistinct(slots) && Bounded(slots)
    }

    constructor ()
      ensures Valid() && slots == [] && fresh(objects)
    {
      queues, nextId, slots, objects := [], 1, [], {};
    }

    method OpenMessageQueue(name: string) returns (id: int)
      requires Valid()
      ensures id == Opened(slots, name)
    {
      var i := 0;
      while i < |queues|
        invariant 0 <= i <= |queues|
        invariant forall k | 0 <= k < i :: slots[k].Some? ==> slots[k].value.name != name
      {
        assert slots[i].Some? <==> queues[i] != null;
        if queues[i] != null && queues[i].name == name { return i + 1; }
        i := i + 1;
      }
      return -1;
    }

    method CreateMessageQueue(owner: int, name: string) returns (id: int)
      requires Valid()
      modifies this
      ensures Valid() && fresh(objects - old(objects))
      ensures slots == Created(old(slots), owner, name) && id == CreatedId(old(slots), name)
    {
      var taken := OpenMessageQueue(name);
      if taken != -1 { return -1; }
      ghost var was := slots;
      CreateKeeps(slots, owner, name);
      var queue := new MessageQueue(owner, name);
      var i := 0;
      while i < |queues| && queues[i] != null
        invariant 0 <= i <= |queues| && forall k | 0 <= k < i :: slots[k].Some?
        modifies {}
      {
        assert slots[i].Some?;
        i := i + 1;
      }
      assert i < |queues| ==> slots[i].None?;
      assert i == FreeSlot(slots);
      id := i + 1;
      objects := objects + {queue};
      slots := Created(slots, owner, name);
      if i < |queues| {
        queues := queues[i := queue];
      } else {
        nextId := nextId + 1;
        queues := queues + [queue];
      }
    }

    method DestroyMessageQueue(id: int) returns (ok: bool)
      requires Valid()
      modifies this
      ensures Valid() && objects == old(objects)
      ensures slots == Destroyed(old(slots), id) && (ok <==> IsLive(old(slots), id)) && !IsLive(slots, id)
    {
      if id <= 0 || id >= nextId || id > |queues| { return false; }
      assert slots[id - 1].Some? <==> queues[id - 1] != null;
      if queues[id - 1] == null { return false; }
      DestroyKeeps(slots, id);
      queues := queues[id - 1 := null];
      slots := slots[id - 1 := None];
      return true;
    }

    method SendMessage(id: int, m: Message) returns (ok: bool)
      requires Valid()
      modifies this`slots, objects
      ensures Valid()
      ensures slots == Sent(old(slots), id, m)
      ensures ok <==>
        && 0 < id <= |old(slots)| && old(slots)[id - 1].Some?
        && |old(slots)[id - 1].value.pending| < 64 && |m.data| <= 1024
      ensures ok ==> Pending(slots, id) == Pending(old(slots), id) + [m]
    {
      if id <= 0 || id >= nextId || id > |queues| { return false; }
      assert slots[id - 1].Some? <==> queues[id - 1] != null;
      if queues[id - 1] == null { return false; }
      SendKeeps(slots, id, m);
      ok := queues[id - 1].SendMessage(m);
      slots := SetPending(slots, id, queues[id - 1].messages);
    }

    method ReceiveMessage(id: int) returns (m: Option<Message>)
      requires Valid()
      modifies this`slots, objects
      ensures Valid()
      ensures slots == Received(old(slots), id)
      ensures m == if Pending(old(slots), id) == [] then None else Some(Pending(old(slots), id)[0])
    {
      if id <= 0 || id >= nextId || id > |queues| { return None; }
      assert slots[id - 1].Some? <==> queues[id - 1] != null;
      if queues[id - 1] == null { return None; }
      ReceiveKeeps(slots, id);
      m := queues[id - 1].ReceiveMessage();
      slots := SetPending(slots, id, queues[id - 1].messages);
    }
  }
}

/** The event queue of an open file in nvidia-geforce-340.107/nv.c: `nv_post_event`, `nv_get_event` and
    `nvidia_poll` work on a singly linked list with head and tail pointers, each under the file's
    spinlock. */
module EventQueue {
  import opened Options
  import opened Runs

  /** `hObject` and `index` are overwritten when the event is posted. */
  datatype NvEvent = NvEvent(hParent: nat, hObject: nat, index: nat, fd: nat)

  // ------------------------------------------------------------------ the queue as a value

  /** `posted` and `delivered` record the data events put in and taken out. */
  datatype State = State(queue: seq<NvEvent>, pending: bool, posted: seq<NvEvent>, delivered: seq<NvEvent>)

  const INIT := State([], false, [], [])

  datatype Action =
    | Post(event: NvEvent, handle: nat, index: nat, dataValid: bool, hasMemory: bool)
    | Get
    | Poll

  function Stamped(event: NvEvent, handle: nat, index: nat): NvEvent {
    event.(hObject := handle, index := index)
  }

  /** A post that needs a list entry and cannot get one is dropped without a trace. */
  predicate Dropped(a: Action) {
    a.Post? && a.dataValid && !a.hasMemory
  }

  predicate Ready(s: State) {
    s.queue != [] || s.pending
  }

  function Step(s: State, a: Action): State {
    match a
    case Post(event, handle, index, dataValid, _) =>
      if Dropped(a) then s
      else if !dataValid then s.(pending := true)
      else
        var e := Stamped(event, handle, index);
        s.(queue := s.queue + [e], posted := s.posted + [e], pending := true)
    case Get =>
      if s.queue == [] then s
      else s.(queue := s.queue[1..], delivered := s.delivered + [s.queue[0]])
    case Poll => if Ready(s) then s.(pending := false) else s
  }

  /** Some post since the last poll was not dropped, read off the actions alone. */
  predicate PostSincePoll(run: seq<Action>) {
    run != [] &&
    var last := run[|run| - 1];
    !last.Poll? && ((last.Post? && !Dropped(last)) || PostSincePoll(run[..|run| - 1]))
  }

  /** First in, first out: in every interleaving, what was posted is what was delivered followed by
      what is queued. */
  lemma QueueIsFifo(run: seq<Action>)
    ensures var s := Exec(Step, INIT, run); s.posted == s.delivered + s.queue
  {
    InvariantHolds(Step, (s: State) => s.posted == s.delivered + s.queue, INIT, run);
  }

  /** Poll answers ready exactly if an event is queued or an undropped post has happened since the
      last poll. */
  lemma {:induction false} PollIsExact(run: seq<Action>)
    ensures var s := Exec(Step, INIT, run);
      && s.pending == PostSincePoll(run)
      && (Ready(s) <==> s.queue != [] || PostSincePoll(run))
  {
    if run != [] {
      var n := |run| - 1;
      PollIsExact(run[..n]);
      assert run[..n] + [run[n]] == run;
      ExecSplit(Step, INIT, run[..n], [run[n]]);
      var s := Exec(Step, INIT, run[..n]);
      assert Exec(Step, s, [run[n]]) == Step(s, run[n]);
    }
  }

  /** The data event that an action posts, if any: with the parent and file of the caller's event and the
      handle and index of the post. */
  function PostOf(a: Action): seq<NvEvent> {
    match a
    case Post(event, handle, index, true, true) => [NvEvent(event.hParent, handle, index, event.fd)]
    case _ => []
  }

  function Posts(run: seq<Action>): seq<NvEvent> {
    if run == [] then [] else Posts(run[..|run| - 1]) + PostOf(run[|run| - 1])
  }

  /** How many gets of a run find something: each one, until all that was posted before it is taken. */
  function Taken(run: seq<Action>): (n: nat)
    ensures n <= |Posts(run)|
  {
    if run == [] then 0 else
    var before, last := run[..|run| - 1], run[|run| - 1];
    if last.Get? && Taken(before) < |Posts(before)| then Taken(before) + 1 else Taken(before)
  }

  /** Of what was posted the first `taken` are delivered and the others queued. */
  predicate Follows(s: State, posts: seq<NvEvent>, taken: nat) {
    taken <= |posts| && s.posted == posts && s.delivered == posts[..taken] && s.queue == posts[taken..]
  }

  lemma PostFollows(s: State, a: Action, posts: seq<NvEvent>, taken: nat)
    requires Follows(s, posts, taken) && !a.Get?
    ensures Follows(Step(s, a), posts + PostOf(a), taken)
  {
    assert (posts + PostOf(a))[..taken] == posts[..taken];
    assert (posts + PostOf(a))[taken..] == posts[taken..] + PostOf(a);
  }

  lemma GetFollows(s: State, posts: seq<NvEvent>, taken: nat)
    requires Follows(s, posts, taken)
    ensures Follows(Step(s, Get), posts, if taken < |posts| then taken + 1 else taken)
  {
    if taken < |posts| {
      assert posts[taken..][1..] == posts[taken + 1..];
    }
  }

  /** In every interleaving the actions decide what is delivered and what is queued. */
  lemma {:induction false} ActionsDecide(run: seq<Action>)
    ensures var s := Exec(Step, INIT, run);
      && s.posted == Posts(run)
      && s.delivered == Posts(run)[..Taken(run)]
      && s.queue == Posts(run)[Taken(run)..]
    decreases |run|
  {
    if run != [] {
      var before, last := run[..|run| - 1], run[|run| - 1];
      ActionsDecide(before);
      assert before + [last] == run;
      ExecSnoc(Step, INIT, before, last);
      var s := Exec(Step, INIT, before);
      if last.Get? {
        GetFollows(s, Posts(before), Taken(before));
        assert Posts(before) + [] == Posts(before);
      } else {
        PostFollows(s, last, Posts(before), Taken(before));
      }
    }
  }

  // ------------------------------------------------------------------ the linked list

  class Node {
    var event: NvEvent
    var next: Node?

    constructor (event: NvEvent)
      ensures this.event == event && next == null
    {
      this.event, next := event, null;
    }
  }

  class FilePrivate {
    var head: Node?
    var tail: Node?
    var eventPending: bool
    ghost var nodes: seq<Node>
    ghost var posted: seq<NvEvent>
    ghost var delivered: seq<NvEvent>

    /** The list runs through `nodes`, from head to tail. */
    ghost predicate Valid()
      reads this, nodes
    {
      && (forall i, j :: 0 <= i < j < |nodes| ==> nodes[i] != nodes[j])
      && (forall i :: 0 <= i < |nodes| - 1 ==> nodes[i].next == nodes[i + 1])
      && (nodes != [] ==> nodes[|nodes| - 1].next == null)
      && head == (if nodes == [] then null else nodes[0])
      && tail == (if nodes == [] then null else nodes[|nodes| - 1])
    }

    ghost function Contents(): (es: seq<NvEvent>)
      reads this, nodes
      ensures |es| == |nodes|
    {
      seq(|nodes|, i requires 0 <= i < |nodes| reads this, nodes => nodes[i].event)
    }

    ghost function View(): State
      reads this, nodes
    {
      State(Contents(), eventPending, posted, delivered)
    }

    constructor ()
      ensures Valid() && View() == INIT && nodes == []
      ensures head == null && tail == null
    {
      head, tail, eventPending := null, null, false;
      nodes, posted, delivered := [], [], [];
    }

    method PostEvent(event: NvEvent, handle: nat, index: nat, dataValid: bool, hasMemory: bool)
      requires Valid()
      modifies this, nodes
      ensures Valid() && (head == null <==> tail == null)
      ensures View() == Step(old(View()), Post(event, handle, index, dataValid, hasMemory))
      ensures Contents() == old(Contents())
                            + if dataValid && hasMemory then [NvEvent(event.hParent, handle, index, event.fd)] else []
      ensures eventPending <==> old(eventPending) || !dataValid || hasMemory
      ensures forall n :: n in nodes ==> n in old(nodes) || fresh(n)
    {
      if dataValid {
        if !hasMemory {
          return;
        }
        var node := new Node(event);
        if tail != null {
          tail.next := node;
        }
        if head == null {
          head := node;
        }
        tail := node;
        node.next := null;
        node.event := event.(hObject := handle, index := index);
        nodes := nodes + [node];
        posted := posted + [Stamped(event, handle, index)];
      }
      eventPending := true;
    }

    /** `more` tells the caller whether further events are queued. */
    method GetEvent() returns (event: Option<NvEvent>, more: bool)
      requires Valid()
      modifies this
      ensures Valid() && (head == null <==> tail == null)
      ensures View() == Step(old(View()), Get)
      ensures Contents() == (if old(Contents()) == [] then [] else old(Contents())[1..])
      ensures eventPending == old(eventPending)
      ensures event == if old(Contents()) == [] then None else Some(old(Contents())[0])
      ensures event.Some? ==> (more <==> Contents() != [])
    {
      var node := head;
      more := false;
      if node == null {
        return None, false;
      }
      event := Some(node.event);
      if tail == node {
        tail := null;
      }
      head := node.next;
      more := head != null;
      delivered := delivered + [node.event];
      nodes := nodes[1..];
    }

    method PollFile() returns (ready: bool)
      requires Valid()
      modifies this`eventPending
      ensures Valid()
      ensures View() == Step(old(View()), Poll)
      ensures ready <==> old(Contents()) != [] || old(eventPending)
      ensures !eventPending
    {
      ready := false;
      if head != null || eventPending {
        ready := true;
        eventPending := false;
      }
    }
  }
}

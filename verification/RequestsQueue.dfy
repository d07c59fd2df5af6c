// The command queue between the HTTP threads and the worker. Each operation
// runs under the lock, so an execution is a sequence of whole operations.
module RequestsQueue {
  import opened Wrappers
  import opened Commands

  class RequestsQueue {
    var requests: seq<Command>
    ghost var posted: seq<Command>   // everything ever pushed
    ghost var taken: seq<Command>    // everything ever popped

    // Nothing is lost, duplicated or reordered.
    ghost predicate Valid()
      reads this
    {
      posted == taken + requests
    }

    constructor ()
      ensures Valid() && requests == [] && posted == [] && taken == []
    {
      requests, posted, taken := [], [], [];
    }

    method GetOperation() returns (operation: Option<Command>)
      requires Valid()
      modifies this
      ensures Valid() && posted == old(posted)
      ensures operation.None? <==> old(requests) == []
      ensures operation.None? ==> requests == [] && taken == old(taken)
      ensures operation.Some? ==> old(requests) == [operation.value] + requests
                                  && taken == old(taken) + [operation.value]
    {
      if |requests| == 0 {
        return None;
      }
      operation := Some(requests[0]);
      requests := requests[1..];
      taken := taken + [operation.value];
    }

    method PushOperation(command: Command)
      requires Valid()
      modifies this
      ensures Valid() && requests == old(requests) + [command]
      ensures posted == old(posted) + [command] && taken == old(taken)
    {
      requests := requests + [command];
      posted := posted + [command];
    }

    // What other threads push at one moment, in the order they get the lock.
    method PushAll(commands: seq<Command>)
      requires Valid()
      modifies this
      ensures Valid() && requests == old(requests) + commands
      ensures posted == old(posted) + commands && taken == old(taken)
    {
      for n := 0 to |commands|
        invariant Valid() && requests == old(requests) + commands[..n]
        invariant posted == old(posted) + commands[..n] && taken == old(taken)
      {
        PushOperation(commands[n]);
        assert commands[..n + 1] == commands[..n] + [commands[n]];
      }
      assert commands[..|commands|] == commands;
    }

    // A pop by the worker, just before which other threads push `commands`.
    method GetOperationAfter(commands: seq<Command>) returns (operation: Option<Command>)
      requires Valid()
      modifies this
      ensures Valid() && posted == old(posted) + commands
      ensures operation.None? <==> old(requests) + commands == []
      ensures operation.None? ==> requests == [] && taken == old(taken)
      ensures operation.Some? ==> old(requests) + commands == [operation.value] + requests
                                  && taken == old(taken) + [operation.value]
    {
      PushAll(commands);
      operation := GetOperation();
    }
  }

  // ----- Interleavings -----

  // One locked operation: a push by some thread, or a pop by the worker.
  datatype Operation = Push(thread: nat, command: Command) | Pop

  // The queue with its senders, and what the worker has taken so far.
  datatype Channel = Channel(queued: seq<(nat, Command)>, handled: seq<(nat, Command)>)

  function Perform(ch: Channel, op: Operation): Channel {
    match op
    case Push(thread, command) => ch.(queued := ch.queued + [(thread, command)])
    case Pop =>
      if ch.queued == [] then ch
      else Channel(ch.queued[1..], ch.handled + [ch.queued[0]])
  }

  function PerformAll(ops: seq<Operation>): Channel {
    if ops == [] then Channel([], [])
    else Perform(PerformAll(ops[..|ops| - 1]), ops[|ops| - 1])
  }

  function Posts(ops: seq<Operation>): seq<(nat, Command)> {
    if ops == [] then []
    else
      var last := ops[|ops| - 1];
      Posts(ops[..|ops| - 1]) + if last.Push? then [(last.thread, last.command)] else []
  }

  // What one thread sent, in its order.
  function From(thread: nat, posts: seq<(nat, Command)>): seq<Command>
    decreases |posts|
  {
    if posts == [] then []
    else (if posts[0].0 == thread then [posts[0].1] else []) + From(thread, posts[1..])
  }

  lemma {:induction false} FromConcat(thread: nat, a: seq<(nat, Command)>, b: seq<(nat, Command)>)
    ensures From(thread, a + b) == From(thread, a) + From(thread, b)
    decreases |a|
  {
    if a == [] {
      assert a + b == b;
    } else {
      assert (a + b)[1..] == a[1..] + b && (a + b)[0] == a[0];
      FromConcat(thread, a[1..], b);
      var first := if a[0].0 == thread then [a[0].1] else [];
      assert From(thread, a + b) == first + From(thread, a[1..] + b);
      assert first + (From(thread, a[1..]) + From(thread, b)) == first + From(thread, a[1..]) + From(thread, b);
    }
  }

  // Under every interleaving of pushes and pops, what was handled followed by
  // what is queued is what was posted.
  lemma {:induction false} Conservation(ops: seq<Operation>)
    ensures PerformAll(ops).handled + PerformAll(ops).queued == Posts(ops)
    decreases |ops|
  {
    if ops != [] {
      Conservation(ops[..|ops| - 1]);
    }
  }

  // In particular each thread's commands are handled in the order it sent them,
  // with none missing in between.
  lemma ThreadOrder(ops: seq<Operation>, thread: nat)
    ensures From(thread, PerformAll(ops).handled) <= From(thread, Posts(ops))
  {
    Conservation(ops);
    FromConcat(thread, PerformAll(ops).handled, PerformAll(ops).queued);
  }

  // ----- The object under an interleaving -----

  function CommandsOf(posts: seq<(nat, Command)>): seq<Command> {
    seq(|posts|, k requires 0 <= k < |posts| => posts[k].1)
  }

  lemma CommandsOfConcat(a: seq<(nat, Command)>, b: seq<(nat, Command)>)
    ensures CommandsOf(a + b) == CommandsOf(a) + CommandsOf(b)
  {
  }

  // One operation on the object, as on the channel.
  lemma OperationActs(ch: Channel, op: Operation)
    ensures op.Push? ==> CommandsOf(Perform(ch, op).queued) == CommandsOf(ch.queued) + [op.command]
    ensures op.Pop? && ch.queued != [] ==>
      && CommandsOf(Perform(ch, op).queued) == CommandsOf(ch.queued)[1..]
      && CommandsOf(Perform(ch, op).handled) == CommandsOf(ch.handled) + [CommandsOf(ch.queued)[0]]
  {
    if op.Push? {
      CommandsOfConcat(ch.queued, [(op.thread, op.command)]);
    } else if ch.queued != [] {
      CommandsOfConcat(ch.handled, [ch.queued[0]]);
    }
  }

  // The queue object goes through every interleaving as the channel does.
  method Interleave(ops: seq<Operation>) returns (queue: RequestsQueue)
    ensures fresh(queue) && queue.Valid()
    ensures queue.requests == CommandsOf(PerformAll(ops).queued)
    ensures queue.taken == CommandsOf(PerformAll(ops).handled)
    ensures queue.posted == CommandsOf(Posts(ops))
  {
    queue := new RequestsQueue();
    for n := 0 to |ops|
      invariant fresh(queue) && queue.Valid()
      invariant queue.requests == CommandsOf(PerformAll(ops[..n]).queued)
      invariant queue.taken == CommandsOf(PerformAll(ops[..n]).handled)
    {
      ghost var ch := PerformAll(ops[..n]);
      assert ops[..n + 1][..n] == ops[..n];
      assert PerformAll(ops[..n + 1]) == Perform(ch, ops[n]);
      OperationActs(ch, ops[n]);
      match ops[n]
      case Push(_, command) => queue.PushOperation(command);
      case Pop =>
        ghost var before := queue.requests;
        var operation := queue.GetOperation();
        assert operation.Some? ==> queue.requests == before[1..] && operation.value == before[0];
    }
    assert ops[..|ops|] == ops;
    Conservation(ops);
    CommandsOfConcat(PerformAll(ops).handled, PerformAll(ops).queued);
  }
}

// What the worker takes from the queue in a tick during which other threads
// keep pushing.
module QueueDrain {
  import opened Commands
  import opened ReflowSpec

  function Flatten(pushes: seq<seq<Command>>): seq<Command> {
    if pushes == [] then [] else pushes[0] + Flatten(pushes[1..])
  }

  // What arrives just before the next pop, and what arrives later.
  function Arriving(pushes: seq<seq<Command>>): seq<Command> {
    if pushes == [] then [] else pushes[0]
  }

  function Later(pushes: seq<seq<Command>>): seq<seq<Command>> {
    if pushes == [] then [] else pushes[1..]
  }

  // The commands handled in a tick, and those queued at its end.
  datatype Drained = Drained(handled: seq<Command>, left: seq<Command>)

  // pushes[i] arrives just before the i-th pop of the drain; what has not arrived
  // when the drain ends arrives in the rest of the tick.
  function DrainQueue(s: State, queued: seq<Command>, pushes: seq<seq<Command>>, known: set<nat>): Drained
    decreases |pushes|, |queued|
  {
    if s.fault.Some? then Drained([], queued + Flatten(pushes))
    else
      var queue := queued + Arriving(pushes);
      if queue == [] then Drained([], Flatten(Later(pushes)))
      else
        var rest := DrainQueue(Dispatch(s, queue[0], known), queue[1..], Later(pushes), known);
        Drained([queue[0]] + rest.handled, rest.left)
  }

  // Concatenation, in order.
  lemma {:induction false} FlattenConcat(a: seq<seq<Command>>, b: seq<seq<Command>>, commands: seq<Command>)
    ensures Flatten([]) == [] && Flatten([commands]) == commands
    ensures Flatten(a + b) == Flatten(a) + Flatten(b)
    decreases |a|
  {
    assert Flatten([commands]) == commands + Flatten([]);
    if a == [] {
      assert a + b == b;
    } else {
      assert (a + b)[1..] == a[1..] + b && (a + b)[0] == a[0];
      FlattenConcat(a[1..], b, commands);
      assert a[0] + (Flatten(a[1..]) + Flatten(b)) == a[0] + Flatten(a[1..]) + Flatten(b);
    }
  }

  lemma FlattenIs(pushes: seq<seq<Command>>)
    ensures Flatten(pushes) == Arriving(pushes) + Flatten(Later(pushes))
  {
  }

  lemma FirstOf(queue: seq<Command>, handled: seq<Command>, left: seq<Command>, rest: seq<Command>)
    requires queue != [] && handled + left == queue[1..] + rest
    ensures [queue[0]] + handled + left == queue + rest
  {
    assert [queue[0]] + handled + left == [queue[0]] + (handled + left);
    assert queue + rest == [queue[0]] + (queue[1..] + rest);
  }

  // Nothing is lost, duplicated or reordered.
  lemma {:induction false} DrainLosesNothing(s: State, queued: seq<Command>, pushes: seq<seq<Command>>, known: set<nat>)
    ensures var d := DrainQueue(s, queued, pushes, known); d.handled + d.left == queued + Flatten(pushes)
    decreases |pushes|, |queued|
  {
    FlattenIs(pushes);
    var queue := queued + Arriving(pushes);
    assert queued + Flatten(pushes) == queue + Flatten(Later(pushes));
    if s.fault.None? && queue != [] {
      var next := Dispatch(s, queue[0], known);
      DrainLosesNothing(next, queue[1..], Later(pushes), known);
      var rest := DrainQueue(next, queue[1..], Later(pushes), known);
      FirstOf(queue, rest.handled, rest.left, Flatten(Later(pushes)));
    }
  }

  function Calls(pushes: seq<seq<Command>>, later: nat): nat {
    if pushes == [] then later else 1 + later
  }

  lemma TakenBefore(queued: seq<Command>, pushes: seq<seq<Command>>, m: nat)
    requires m <= |Later(pushes)|
    ensures var n := Calls(pushes, m);
      && n <= |pushes|
      && queued + Flatten(pushes[..n]) == queued + Arriving(pushes) + Flatten(Later(pushes)[..m])
      && pushes[n..] == Later(pushes)[m..]
  {
    var n := Calls(pushes, m);
    FlattenIs(pushes[..n]);
    assert pushes != [] ==> Later(pushes[..n]) == Later(pushes)[..m];
  }

  lemma AllOf(queue: seq<Command>, handled: seq<Command>, arrived: seq<Command>)
    requires queue != [] && handled == queue[1..] + arrived
    ensures [queue[0]] + handled == queue + arrived
  {
  }

  // Unless a command ends the worker, it handles all that was queued and then
  // all that arrived before one of its pops: the pushes after the last are left.
  lemma {:induction false} DrainTakesAll(s: State, queued: seq<Command>, pushes: seq<seq<Command>>, known: set<nat>)
    returns (n: nat)
    ensures n <= |pushes|
    ensures var d := DrainQueue(s, queued, pushes, known);
      Drain(s, d.handled, known).fault.None? ==>
        d.handled == queued + Flatten(pushes[..n]) && d.left == Flatten(pushes[n..])
    decreases |pushes|, |queued|
  {
    var queue, m := queued + Arriving(pushes), 0;
    if s.fault.None? && queue != [] {
      var next := Dispatch(s, queue[0], known);
      m := DrainTakesAll(next, queue[1..], Later(pushes), known);
      var rest := DrainQueue(next, queue[1..], Later(pushes), known);
      assert ([queue[0]] + rest.handled)[1..] == rest.handled;
      if Drain(next, rest.handled, known).fault.None? {
        AllOf(queue, rest.handled, Flatten(Later(pushes)[..m]));
      }
    }
    TakenBefore(queued, pushes, m);
    n := Calls(pushes, m);
  }

  // ----- Part of the way through -----

  lemma {:induction false} DrainSnoc(s: State, batch: seq<Command>, c: Command, known: set<nat>)
    ensures Drain(s, batch + [c], known) == Dispatch(Drain(s, batch, known), c, known)
    decreases |batch|
  {
    if batch == [] {
      assert batch + [c] == [c];
      assert Drain(Dispatch(s, c, known), [], known) == Dispatch(s, c, known);
    } else {
      assert (batch + [c])[1..] == batch[1..] + [c];
      DrainSnoc(Dispatch(s, batch[0], known), batch[1..], c, known);
    }
  }

  // A drain that has handled `handled` and is now at state s, with `coming` still
  // to arrive, is on its way to what DrainQueue says.
  ghost predicate Draining(start: State, queued: seq<Command>, pushes: seq<seq<Command>>, known: set<nat>,
                           s: State, requests: seq<Command>, coming: seq<seq<Command>>, handled: seq<Command>)
  {
    var rest := DrainQueue(s, requests, coming, known);
    s == Drain(start, handled, known)
    && DrainQueue(start, queued, pushes, known) == Drained(handled + rest.handled, rest.left)
  }

  lemma DrainingNext(start: State, queued: seq<Command>, pushes: seq<seq<Command>>, known: set<nat>,
                     s: State, requests: seq<Command>, coming: seq<seq<Command>>, handled: seq<Command>,
                     c: Command, remaining: seq<Command>)
    requires Draining(start, queued, pushes, known, s, requests, coming, handled)
    requires s.fault.None? && requests + Arriving(coming) == [c] + remaining
    ensures Draining(start, queued, pushes, known, Dispatch(s, c, known), remaining, Later(coming), handled + [c])
  {
    DrainSnoc(start, handled, c, known);
    var rest := DrainQueue(Dispatch(s, c, known), remaining, Later(coming), known);
    assert DrainQueue(s, requests, coming, known) == Drained([c] + rest.handled, rest.left) by {
      assert ([c] + remaining)[1..] == remaining;
    }
    assert handled + ([c] + rest.handled) == handled + [c] + rest.handled;
  }

  lemma DrainedNow(start: State, queued: seq<Command>, pushes: seq<seq<Command>>, known: set<nat>,
                   s: State, requests: seq<Command>, coming: seq<seq<Command>>, handled: seq<Command>)
    requires Draining(start, queued, pushes, known, s, requests, coming, handled)
    requires s.fault.None? && requests + Arriving(coming) == []
    ensures DrainQueue(start, queued, pushes, known) == Drained(handled, Flatten(Later(coming)))
  {
  }

  lemma PostedThen(taken: seq<Command>, handled: seq<Command>, left: seq<Command>,
                   queued: seq<Command>, arrived: seq<Command>)
    requires handled + left == queued + arrived
    ensures taken + handled + left == taken + queued + arrived
  {
    assert taken + handled + left == taken + (handled + left);
  }

  lemma HandledNext(taken: seq<Command>, handled: seq<Command>, c: Command)
    ensures taken + handled + [c] == taken + (handled + [c])
  {
  }
}

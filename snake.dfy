/** The snake: an ordered body, head first, and its heading with the one-request-per-tick latch. */
module Snakes {
  import opened Cells

  function Last(s: seq<Coord>): Coord
    requires |s| >= 1
  {
    s[|s| - 1]
  }

  /** The body after one move: the new head in front and the last segment dropped. */
  function Advanced(body: seq<Coord>, h: Heading): seq<Coord>
    requires |body| >= 1
  {
    [Step(body[0], h)] + body[..|body| - 1]
  }

  /** The body after `consume(target)`: the removed tail re-appended when the target was food. */
  function Grown(body: seq<Coord>, removedTail: Coord, target: Symbol): seq<Coord>
  {
    if target == Food then body + [removedTail] else body
  }

  /** The cells `is_dead` treats as fatal. */
  predicate Deadly(s: Symbol)
  {
    s == Wall || s == SnakeBody
  }

  /** Consecutive segments share a side. */
  predicate Connected(body: seq<Coord>)
  {
    forall i :: 0 <= i < |body| - 1 ==> Adjacent(body[i], body[i + 1])
  }

  /**
   * One move followed by one consume keeps the body connected: the new head
   * is next to the old head, and a re-appended tail is next to the segment
   * that preceded it.
   */
  lemma {:induction false} TickKeepsConnected(body: seq<Coord>, h: Heading, target: Symbol)
    requires |body| >= 1 && Connected(body)
    ensures Connected(Grown(Advanced(body, h), Last(body), target))
  {
    var moved := Advanced(body, h);
    assert Connected(moved) by {
      forall i | 0 <= i < |moved| - 1
        ensures Adjacent(moved[i], moved[i + 1])
      {
        if i > 0 {
          assert moved[i] == body[i - 1] && moved[i + 1] == body[i];
        }
      }
    }
    if target == Food {
      var grown := moved + [Last(body)];
      forall i | 0 <= i < |grown| - 1
        ensures Adjacent(grown[i], grown[i + 1])
      {
        if i < |moved| - 1 {
          assert grown[i] == moved[i] && grown[i + 1] == moved[i + 1];
        } else if |body| > 1 {
          assert grown[i] == body[|body| - 2];
        }
      }
    }
  }

  /** Membership of `(current, requested)` in the source's list of reversing pairs. */
  predicate Reverses(current: Heading, requested: Heading)
  {
    (current == Left && requested == Right) || (current == Right && requested == Left) ||
    (current == Down && requested == Up) || (current == Up && requested == Down)
  }

  /** The listed pairs are exactly a heading and its reverse. */
  lemma ReversesIsOpposite(current: Heading, requested: Heading)
    ensures Reverses(current, requested) <==> requested == Opposite(current)
  {
    match current
    case Up =>
    case Down =>
    case Left =>
    case Right =>
  }

  /**
   * Whether an evaluated request becomes the heading: a missing request is
   * refused, and so is a reversal while the body is longer than one segment.
   */
  predicate Accepts(current: Heading, request: Option<Heading>, length: int)
  {
    request.Some? && !(Reverses(current, request.value) && length != 1)
  }

  /**
   * The heading after a run of `set_movement` calls, starting from the
   * latch value `processed`; every call clears the latch.
   */
  function AfterRequests(current: Heading, processed: bool, requests: seq<Option<Heading>>, length: int): Heading
    decreases |requests|
  {
    if requests == [] then current
    else if processed && Accepts(current, requests[0], length) then
      AfterRequests(requests[0].value, false, requests[1..], length)
    else
      AfterRequests(current, false, requests[1..], length)
  }

  /** With the latch cleared, no request changes the heading. */
  lemma {:induction false} ClearedLatchIgnoresRequests(current: Heading, requests: seq<Option<Heading>>, length: int)
    ensures AfterRequests(current, false, requests, length) == current
    decreases |requests|
  {
    if requests != [] {
      ClearedLatchIgnoresRequests(current, requests[1..], length);
    }
  }

  /**
   * Between two moves only the first request is evaluated: the heading ends
   * as that request if it is accepted, and otherwise stays as it was.
   */
  lemma {:induction false} OnlyFirstRequestCounts(current: Heading, requests: seq<Option<Heading>>, length: int)
    ensures AfterRequests(current, true, requests, length) ==
            if requests != [] && Accepts(current, requests[0], length) then requests[0].value else current
  {
    if requests != [] {
      var next := if Accepts(current, requests[0], length) then requests[0].value else current;
      ClearedLatchIgnoresRequests(next, requests[1..], length);
    }
  }

  /** However many keys arrive within a tick, a longer snake never ends up reversed. */
  lemma NoReversalWithinTick(current: Heading, requests: seq<Option<Heading>>, length: int)
    requires length != 1
    ensures AfterRequests(current, true, requests, length) != Opposite(current)
  {
    OnlyFirstRequestCounts(current, requests, length);
    if requests != [] && requests[0].Some? {
      ReversesIsOpposite(current, requests[0].value);
    }
  }

  class Snake {
    /** The current heading. */
    var movement: Heading
    /** Where the tail was before the last move. */
    var removedTail: Coord
    /** Where the head is. */
    var head: Coord
    /** The segments, head first. */
    var body: seq<Coord>
    /** What the head landed on at the last consume. */
    var justEaten: Symbol
    /** True after a move until the next heading request is evaluated. */
    var movementProcessed: bool

    predicate Valid()
      reads this
    {
      |body| >= 1 && head == body[0]
    }

    /** A one-segment snake at `start`, heading up, with the latch set. */
    constructor (start: Coord)
      ensures Valid()
      ensures body == [start] && head == start && removedTail == start
      ensures movement == Up && justEaten == Grid && movementProcessed
    {
      movement := Up;
      removedTail := start;
      head := start;
      body := [start];
      justEaten := Grid;
      movementProcessed := true;
    }

    /**
     * `move`: the head steps by the heading's delta and is pushed on the
     * front; the last segment is popped into `removedTail`; the latch is set.
     */
    method Move() returns (newHead: Coord)
      requires Valid()
      modifies this
      ensures Valid()
      ensures newHead == head == Step(old(head), old(movement))
      ensures body == Advanced(old(body), old(movement))
      ensures |body| == |old(body)| && body[1..] == old(body)[..|old(body)| - 1]
      ensures removedTail == Last(old(body))
      ensures old(body) == body[1..] + [GetOldTail()]
      ensures movementProcessed
      ensures movement == old(movement) && justEaten == old(justEaten)
    {
      head := Step(head, movement);
      body := [head] + body;
      removedTail := body[|body| - 1];
      body := body[..|body| - 1];
      movementProcessed := true;
      newHead := head;
    }

    /** `consume`: records the target and re-appends the removed tail when it is food. */
    method Consume(target: Symbol)
      requires Valid()
      modifies this
      ensures Valid()
      ensures justEaten == target
      ensures body == Grown(old(body), old(removedTail), target)
      ensures |body| == |old(body)| + (if target == Food then 1 else 0)
      ensures IsHungry() <==> target != Food
      ensures IsDead() <==> target == Wall || target == SnakeBody
      ensures head == old(head) && removedTail == old(removedTail)
      ensures movement == old(movement) && movementProcessed == old(movementProcessed)
    {
      justEaten := target;
      if target == Food {
        body := body + [removedTail];
      }
    }

    /** `is_hungry`: the head did not land on food. */
    predicate IsHungry()
      reads this
    {
      justEaten != Food
    }

    /** `is_dead`: the head landed on a wall or on the snake. */
    predicate IsDead()
      reads this
    {
      Deadly(justEaten)
    }

    /**
     * `set_movement`: a no-op while the latch is clear; otherwise the latch
     * is cleared and the request is evaluated, becoming the heading unless
     * it is missing or reverses a body longer than one segment.
     */
    method SetMovement(request: Option<Heading>)
      modifies this
      ensures !movementProcessed
      ensures !old(movementProcessed) ==> movement == old(movement)
      ensures old(movementProcessed) ==>
                movement == if Accepts(old(movement), request, |body|) then request.value else old(movement)
      ensures request.Some? && request.value == Opposite(old(movement)) && |body| != 1 ==>
                movement == old(movement)
      ensures body == old(body) && head == old(head)
      ensures removedTail == old(removedTail) && justEaten == old(justEaten)
    {
      if movementProcessed {
        movementProcessed := false;
        if !((request.Some? && Reverses(movement, request.value) && |body| != 1) || request.None?) {
          movement := request.value;
        }
        if request.Some? {
          ReversesIsOpposite(old(movement), request.value);
        }
      }
    }

    /** `get_head`: the first segment, which is where `move` left the head. */
    function GetHead(): (p: Coord)
      reads this
      requires Valid()
      ensures p == head
    {
      body[0]
    }

    /** `get_old_tail`: the segment the last move popped. */
    function GetOldTail(): (p: Coord)
      reads this
      ensures p == removedTail
    {
      removedTail
    }

    /**
     * The requests the input listener passes to `set_movement` between two
     * moves, in arrival order: the heading ends as `AfterRequests` says, so
     * the lemmas about that fold hold of the object.
     */
    method SetMovements(requests: seq<Option<Heading>>)
      modifies this
      ensures movement == AfterRequests(old(movement), old(movementProcessed), requests, |body|)
      ensures !old(movementProcessed) ==> movement == old(movement)
      ensures old(movementProcessed) && |body| != 1 ==> movement != Opposite(old(movement))
      ensures requests != [] ==> !movementProcessed
      ensures requests == [] ==> movementProcessed == old(movementProcessed)
      ensures body == old(body) && head == old(head)
      ensures removedTail == old(removedTail) && justEaten == old(justEaten)
    {
      var i := 0;
      while i < |requests|
        invariant 0 <= i <= |requests|
        invariant body == old(body) && head == old(head)
        invariant removedTail == old(removedTail) && justEaten == old(justEaten)
        invariant i > 0 ==> !movementProcessed
        invariant i == 0 ==> movementProcessed == old(movementProcessed)
        invariant AfterRequests(movement, movementProcessed, requests[i..], |body|) ==
                  AfterRequests(old(movement), old(movementProcessed), requests, |body|)
      {
        assert requests[i..][0] == requests[i] && requests[i..][1..] == requests[i + 1..];
        SetMovement(requests[i]);
        i := i + 1;
      }
      if old(movementProcessed) {
        if |body| != 1 {
          NoReversalWithinTick(old(movement), requests, |body|);
        }
      } else {
        ClearedLatchIgnoresRequests(old(movement), requests, |body|);
      }
    }
  }
}

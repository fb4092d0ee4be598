/** `Uninitialized<T>`: a one-slot cell whose value is constructed by
    `putValue` (placement new) and moved out and destroyed by `moveValue`.
    Nothing in the source checks the slot's state: `moveValue` on an
    unconstructed slot reads raw storage, and `putValue` over a constructed
    slot overwrites it without running the old value's destructor. */
module Cell {
  import opened Base

  /** The state of the union member `mValue`. */
  datatype Slot<T> = Empty | Full(value: T)

  /** The result of `moveValue`: the value and the slot left behind, or
      `Unconstructed` when the slot held no value (undefined behaviour in the
      source, which would read raw storage). */
  datatype Moved<T> = Moved(value: T, rest: Slot<T>) | Unconstructed

  /** `putValue(v)`: constructs `v` in the slot, whatever was there before. */
  function PutValue<T>(c: Slot<T>, v: T): (r: Slot<T>)
    ensures r.Full? && r.value == v
  {
    Full(v)
  }

  /** `moveValue()`: moves the value out and destroys it in the slot. */
  function MoveValue<T>(c: Slot<T>): (r: Moved<T>)
    ensures r.Moved? <==> c.Full?
    ensures r.Moved? ==> c == Full(r.value) && r.rest == Empty
  {
    match c
    case Full(v) => Moved(v, Empty)
    case Empty => Unconstructed
  }

  /** A put immediately followed by a move hands back the value put and leaves
      the slot unconstructed again, whatever the slot held before. */
  lemma PutThenMove<T>(c: Slot<T>, v: T)
    ensures MoveValue(PutValue(c, v)) == Moved(v, Empty)
  {
  }

  /** One use of the cell: a `putValue` or a `moveValue`. */
  datatype CellOp<T> = Put(item: T) | Take

  /** Runs `ops` on the cell from `c`. `None` when some take finds the slot
      unconstructed; otherwise the values taken, in order, and the final slot. */
  function RunOps<T>(c: Slot<T>, ops: seq<CellOp<T>>): Option<(seq<T>, Slot<T>)>
    decreases |ops|
  {
    if |ops| == 0 then Some(([], c))
    else
      match ops[0]
      case Put(v) => RunOps(PutValue(c, v), ops[1..])
      case Take =>
        match MoveValue(c)
        case Unconstructed => None
        case Moved(v, rest) =>
          match RunOps(rest, ops[1..])
          case None => None
          case Some(res) => Some(([v] + res.0, res.1))
  }

  /** The values `ops` puts, in order. */
  function Puts<T>(ops: seq<CellOp<T>>): seq<T>
    decreases |ops|
  {
    if |ops| == 0 then []
    else (if ops[0].Put? then [ops[0].item] else []) + Puts(ops[1..])
  }

  /** The number of takes in `ops`. */
  function Takes<T>(ops: seq<CellOp<T>>): nat
    decreases |ops|
  {
    if |ops| == 0 then 0
    else (if ops[0].Take? then 1 else 0) + Takes(ops[1..])
  }

  /** The protocol the runtime relies on: put, take, put, take, ... */
  predicate Alternates<T>(ops: seq<CellOp<T>>)
  {
    && |ops| % 2 == 0
    && forall i :: 0 <= i < |ops| ==> (ops[i].Put? <==> i % 2 == 0)
  }

  function Occupied<T>(c: Slot<T>): nat
  {
    if c.Full? then 1 else 0
  }

  /** The cell holds at most one value, so it never hands back more values
      than were put into it (plus the one it started with). */
  lemma {:induction false} TakesBounded<T>(c: Slot<T>, ops: seq<CellOp<T>>)
    requires RunOps(c, ops).Some?
    ensures |RunOps(c, ops).value.0| + Occupied(RunOps(c, ops).value.1) <= Occupied(c) + |Puts(ops)|
    decreases |ops|
  {
    if |ops| > 0 {
      match ops[0]
      case Put(v) =>
        TakesBounded(Full(v), ops[1..]);
      case Take =>
        TakesBounded(Empty, ops[1..]);
    }
  }

  lemma {:induction false} AlternatingReturnsAll<T>(ops: seq<CellOp<T>>)
    requires Alternates(ops)
    ensures RunOps(Empty, ops) == Some((Puts(ops), Empty))
    decreases |ops|
  {
    if |ops| > 0 {
      assert ops[0].Put? && ops[1].Take?;
      var rest := ops[2..];
      assert forall i :: 0 <= i < |rest| ==> rest[i] == ops[i + 2];
      AlternatingReturnsAll(rest);
      assert ops[1..][1..] == rest;
      assert Puts(ops[1..]) == Puts(rest);
    }
  }

  lemma {:induction false} ReturnsAllAlternates<T>(ops: seq<CellOp<T>>)
    requires RunOps(Empty, ops) == Some((Puts(ops), Empty))
    ensures Alternates(ops)
    decreases |ops|
  {
    if |ops| > 0 {
      match ops[0]
      case Take =>
        assert false;
      case Put(v) =>
        if |ops| == 1 {
          assert false;
        } else {
          var rest := ops[2..];
          assert ops[1..][1..] == rest;
          match ops[1]
          case Put(w) =>
            assert RunOps(Empty, ops) == RunOps(Full(w), rest);
            assert Puts(ops) == [v, w] + Puts(rest);
            TakesBounded(Full(w), rest);
            assert false;
          case Take =>
            var res := RunOps(Empty, rest);
            assert RunOps(Empty, ops) == RunOps(Full(v), ops[1..]);
            assert res.Some?;
            assert RunOps(Empty, ops) == Some(([v] + res.value.0, res.value.1));
            assert Puts(ops) == [v] + Puts(ops[1..]);
            assert Puts(ops[1..]) == Puts(rest);
            assert ([v] + res.value.0)[1..] == res.value.0;
            assert ([v] + Puts(rest))[1..] == Puts(rest);
            ReturnsAllAlternates(rest);
            forall i | 0 <= i < |ops|
              ensures ops[i].Put? <==> i % 2 == 0
            {
              if i >= 2 {
                assert ops[i] == rest[i - 2];
              }
            }
        }
    }
  }

  /** The cell gives back every value put into it, in order, ending
      unconstructed, exactly when puts and takes alternate: a second put
      before a take loses a value, a take before a put is undefined. */
  lemma RoundTripIffAlternates<T>(ops: seq<CellOp<T>>)
    ensures RunOps(Empty, ops) == Some((Puts(ops), Empty)) <==> Alternates(ops)
  {
    if Alternates(ops) {
      AlternatingReturnsAll(ops);
    }
    if RunOps(Empty, ops) == Some((Puts(ops), Empty)) {
      ReturnsAllAlternates(ops);
    }
  }

  /** `Uninitialized<void>`: `putValue` is ignored and `moveValue` always
      yields the unit placeholder, so every take of any sequence of uses
      succeeds, unlike the valued cell. */
  function RunVoidOps(ops: seq<CellOp<Unit>>): (r: seq<Unit>)
    ensures |r| == Takes(ops)
    decreases |ops|
  {
    if |ops| == 0 then []
    else if ops[0].Take? then [Unit] + RunVoidOps(ops[1..])
    else RunVoidOps(ops[1..])
  }
}

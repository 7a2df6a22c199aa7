/**
 The pub/sub listener as a sequential trace. Each write to the cell is one
 atomic assignment, so the cell after a finite prefix of the subscription is
 the left fold of the per-message update over that prefix, starting from
 whatever the cell held when the listener began.
 */
module Listener {
  import opened StatusCache

  datatype Option<T> = None | Some(value: T)

  /** The cell after the listener has processed `ms` in order. */
  function Replay(cell: string, ms: seq<Message>): string
    decreases |ms|
  {
    if ms == [] then cell else Replay(Apply(cell, ms[0]), ms[1..])
  }

  /** Whether some message of `ms` carries a payload. */
  predicate HasData(ms: seq<Message>)
  {
    exists i :: 0 <= i < |ms| && IsData(ms[i])
  }

  /** Reference definition of the last write: the payload of the last data
      message of `ms`, read from the right, or None when there is none. */
  function LastData(ms: seq<Message>): (r: Option<string>)
    ensures r.Some? <==> HasData(ms)
    ensures r.Some? ==> exists i :: 0 <= i < |ms| && IsData(ms[i]) && ms[i].data == r.value
                                    && forall j :: i < j < |ms| ==> !IsData(ms[j])
    decreases |ms|
  {
    if ms == [] then None
    else if IsData(ms[|ms| - 1]) then Some(ms[|ms| - 1].data)
    else
      var init := ms[..|ms| - 1];
      assert forall k :: 0 <= k < |init| ==> init[k] == ms[k];
      LastData(init)
  }

  /** The value a trace leaves behind: its last payload, or `cell`. */
  function LastWrite(cell: string, ms: seq<Message>): string
  {
    match LastData(ms)
    case Some(v) => v
    case None => cell
  }

  /** Folding splits over concatenation. */
  lemma {:induction false} ReplayAppend(cell: string, a: seq<Message>, b: seq<Message>)
    ensures Replay(cell, a + b) == Replay(Replay(cell, a), b)
    decreases |a|
  {
    if a == [] {
      assert a + b == b;
    } else {
      assert (a + b)[1..] == a[1..] + b;
      ReplayAppend(Apply(cell, a[0]), a[1..], b);
    }
  }

  /** One more message is one more update. */
  lemma ReplaySnoc(cell: string, ms: seq<Message>, m: Message)
    ensures Replay(cell, ms + [m]) == Apply(Replay(cell, ms), m)
  {
    ReplayAppend(cell, ms, [m]);
  }

  /** Last write wins: the folded cell is the payload of the last data
      message, or the starting cell when the trace holds none. */
  lemma {:induction false} ReplayIsLastWrite(cell: string, ms: seq<Message>)
    ensures Replay(cell, ms) == LastWrite(cell, ms)
    decreases |ms|
  {
    if ms != [] {
      var init := ms[..|ms| - 1];
      var m := ms[|ms| - 1];
      assert init + [m] == ms;
      ReplaySnoc(cell, init, m);
      ReplayIsLastWrite(cell, init);
    }
  }

  /** Control-message filtering: a trace with no data message leaves the
      cell as it was. */
  lemma {:induction false} ControlOnlyKeepsCell(cell: string, ms: seq<Message>)
    requires forall i :: 0 <= i < |ms| ==> !IsData(ms[i])
    ensures Replay(cell, ms) == cell
  {
    ReplayIsLastWrite(cell, ms);
  }

  /** A control message can be dropped from anywhere in a trace. */
  lemma ControlMessageIsNoOp(cell: string, a: seq<Message>, m: Message, b: seq<Message>)
    requires !IsData(m)
    ensures Replay(cell, a + [m] + b) == Replay(cell, a + b)
  {
    ReplayAppend(cell, a + [m], b);
    ReplaySnoc(cell, a, m);
    ReplayAppend(cell, a, b);
  }

  /** Idempotence of delivery: a message delivered twice in a row has the
      effect of one delivery, wherever it occurs in the trace. */
  lemma DuplicateDeliveryIsNoOp(cell: string, a: seq<Message>, m: Message, b: seq<Message>)
    ensures Replay(cell, a + [m, m] + b) == Replay(cell, a + [m] + b)
  {
    assert a + [m, m] + b == (a + [m]) + ([m] + b);
    ReplayAppend(cell, a + [m], [m] + b);
    ReplaySnoc(cell, a, m);
    ReplayAppend(Apply(Replay(cell, a), m), [m], b);
    ApplyIdempotent(Replay(cell, a), m);
    assert a + [m] + b == (a + [m]) + b;
    ReplayAppend(cell, a + [m], b);
  }

  /** Replaying a whole trace a second time changes nothing further. */
  lemma {:induction false} ReplayIdempotent(cell: string, ms: seq<Message>)
    ensures Replay(Replay(cell, ms), ms) == Replay(cell, ms)
  {
    ReplayIsLastWrite(cell, ms);
    ReplayIsLastWrite(Replay(cell, ms), ms);
  }

  /** A data message followed only by control messages is the last write. */
  lemma {:induction false} LastDataAfterWrite(a: seq<Message>, m: Message, b: seq<Message>)
    requires IsData(m)
    requires forall i :: 0 <= i < |b| ==> !IsData(b[i])
    ensures LastData(a + [m] + b) == Some(m.data)
    decreases |b|
  {
    if b == [] {
      assert a + [m] + b == a + [m];
    } else {
      var init := b[..|b| - 1];
      var ms := a + [m] + b;
      assert ms[..|ms| - 1] == a + [m] + init;
      assert ms[|ms| - 1] == b[|b| - 1];
      LastDataAfterWrite(a, m, init);
    }
  }

  /** The listener loop over a finite prefix of the subscription. */
  method Listen(cell: string, ms: seq<Message>) returns (c: string)
    ensures HasData(ms) ==> exists i :: 0 <= i < |ms| && IsData(ms[i]) && c == ms[i].data
                                       && forall j :: i < j < |ms| ==> !IsData(ms[j])
    ensures !HasData(ms) ==> c == cell
    ensures c == Replay(cell, ms)
  {
    c := cell;
    var i := 0;
    while i < |ms|
      invariant 0 <= i <= |ms|
      invariant c == LastWrite(cell, ms[..i])
    {
      assert ms[..i + 1][..i] == ms[..i];
      if ms[i].kind != DataKind {
        i := i + 1;
        continue;
      }
      c := ms[i].data;
      i := i + 1;
    }
    assert ms[..i] == ms;
    ReplayIsLastWrite(cell, ms);
  }
}

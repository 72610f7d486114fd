// The batching writer of a stream endpoint, against a plain receive-check-write loop.
module StreamWriter {
  import opened Basics

  const BATCH_SIZE: nat := 1024

  type Message = seq<Byte>

  datatype Received = Got(m: Message) | Lagged(n: nat) | Empty | Closed

  /** One broadcast receive. The bus keeps the newest `cap` messages; a receiver further
      behind is told how many it lost and moved to the oldest one kept. */
  function Receive(log: seq<Message>, cursor: nat, cap: nat, closed: bool): (r: (Received, nat))
    requires cursor <= |log|
    ensures cursor <= r.1 <= |log|
  {
    if cursor == |log| then (if closed then Closed else Empty, cursor)
    else if |log| - cursor > cap then (Lagged(|log| - cap - cursor), |log| - cap)
    else (Got(log[cursor]), cursor + 1)
  }

  /** What surrounds one receive attempt: the messages published since the last one,
      whether the senders are gone, whether cancellation has fired, what the endpoint's
      outgoing check says of a message received now, and whether writing it succeeds. */
  datatype Attempt = Attempt(
    published: seq<Message>, closed: bool, cancelled: bool, passes: bool, writable: bool)

  // ---- The schedule, without a writer --------------------------------------------------

  function Log(attempts: seq<Attempt>): seq<Message> {
    if attempts == [] then [] else Log(attempts[..|attempts| - 1]) + attempts[|attempts| - 1].published
  }

  /** Where the receiver stands after these attempts, and what each one returned. */
  function Cursor(attempts: seq<Attempt>, cap: nat): (c: nat)
    ensures c <= |Log(attempts)|
    decreases |attempts|, 1
  {
    if attempts == [] then 0 else LastReceive(attempts, cap).1
  }

  function LastReceive(attempts: seq<Attempt>, cap: nat): (r: (Received, nat))
    requires attempts != []
    ensures r.1 <= |Log(attempts)|
    decreases |attempts|, 0
  {
    var front := attempts[..|attempts| - 1];
    Receive(Log(attempts), Cursor(front, cap), cap, attempts[|attempts| - 1].closed)
  }

  function Result(attempts: seq<Attempt>, cap: nat, i: nat): Received
    requires i < |attempts|
  {
    LastReceive(attempts[..i + 1], cap).0
  }

  function GotCount(attempts: seq<Attempt>, cap: nat): nat {
    if attempts == [] then 0
    else GotCount(attempts[..|attempts| - 1], cap) + (if LastReceive(attempts, cap).0.Got? then 1 else 0)
  }

  function LagCount(attempts: seq<Attempt>, cap: nat): nat {
    if attempts == [] then 0
    else
      var last := LastReceive(attempts, cap).0;
      LagCount(attempts[..|attempts| - 1], cap) + (if last.Lagged? then last.n else 0)
  }

  /** Lag accounting: every message published is received, counted as lost, or unread. */
  lemma {:induction false} NothingUnaccounted(attempts: seq<Attempt>, cap: nat)
    ensures GotCount(attempts, cap) + LagCount(attempts, cap) == Cursor(attempts, cap)
    ensures var unread := |Log(attempts)| - Cursor(attempts, cap);
      GotCount(attempts, cap) + LagCount(attempts, cap) + unread == |Log(attempts)|
  {
    if attempts != [] {
      NothingUnaccounted(attempts[..|attempts| - 1], cap);
    }
  }

  /** Messages arrive in bus order, each at most once. */
  lemma {:induction false} BusOrder(attempts: seq<Attempt>, cap: nat, i: nat, j: nat)
    requires i < j < |attempts| && Result(attempts, cap, i).Got? && Result(attempts, cap, j).Got?
    ensures var ci, cj := Cursor(attempts[..i], cap), Cursor(attempts[..j], cap);
      && ci < cj < |Log(attempts)|
      && Result(attempts, cap, i).m == Log(attempts)[ci]
      && Result(attempts, cap, j).m == Log(attempts)[cj]
  {
    GotFromLog(attempts, cap, i);
    GotFromLog(attempts, cap, j);
    CursorMonotone(attempts, cap, i + 1, j);
  }

  lemma {:induction false} GotFromLog(attempts: seq<Attempt>, cap: nat, i: nat)
    requires i < |attempts| && Result(attempts, cap, i).Got?
    ensures var c := Cursor(attempts[..i], cap);
      && c < |Log(attempts)| && Result(attempts, cap, i).m == Log(attempts)[c]
      && Cursor(attempts[..i + 1], cap) == c + 1
  {
    assert attempts[..i + 1][..i] == attempts[..i];
    LogPrefix(attempts, i + 1);
  }

  lemma {:induction false} CursorMonotone(attempts: seq<Attempt>, cap: nat, i: nat, j: nat)
    requires i <= j <= |attempts|
    ensures Cursor(attempts[..i], cap) <= Cursor(attempts[..j], cap)
    decreases j
  {
    if i < j {
      CursorMonotone(attempts, cap, i, j - 1);
      assert attempts[..j][..j - 1] == attempts[..j - 1];
    }
  }

  lemma {:induction false} LogPrefix(attempts: seq<Attempt>, i: nat)
    requires i <= |attempts|
    ensures Log(attempts[..i]) <= Log(attempts)
    decreases |attempts|
  {
    if i < |attempts| {
      LogPrefix(attempts[..|attempts| - 1], i);
      assert attempts[..|attempts| - 1][..i] == attempts[..i];
    } else {
      assert attempts[..i] == attempts;
    }
  }

  /** What a plain loop - receive, check, write, one message at a time - sends. */
  function Sent(attempts: seq<Attempt>, cap: nat): seq<Message> {
    if attempts == [] then []
    else
      var last, result := attempts[|attempts| - 1], LastReceive(attempts, cap).0;
      Sent(attempts[..|attempts| - 1], cap) +
      (if result.Got? && last.passes && last.writable then [result.m] else [])
  }

  function Bytes(messages: seq<Message>): seq<Byte> {
    if messages == [] then []
    else Bytes(messages[..|messages| - 1]) + messages[|messages| - 1]
  }

  lemma {:induction false} BytesConcat(a: seq<Message>, b: seq<Message>)
    ensures Bytes(a + b) == Bytes(a) + Bytes(b)
    decreases |b|
  {
    if b == [] {
      assert a + b == a;
    } else {
      BytesConcat(a, b[..|b| - 1]);
      assert (a + b)[..|a + b| - 1] == a + b[..|b| - 1];
      Associative(Bytes(a), Bytes(b[..|b| - 1]), b[|b| - 1]);
    }
  }

  lemma {:induction false} BytesStep(messages: seq<Message>, m: Message)
    ensures Bytes(messages + [m]) == Bytes(messages) + m
  {
  }

  // ---- What the schedule comes to ------------------------------------------------------

  /** What the receiver has not yet seen when attempt i is made. */
  function Unread(attempts: seq<Attempt>, cap: nat, i: nat): nat
    requires i < |attempts|
  {
    CursorInLog(attempts, cap, i);
    |Log(attempts[..i + 1])| - Cursor(attempts[..i], cap)
  }

  lemma {:induction false} CursorInLog(attempts: seq<Attempt>, cap: nat, i: nat)
    requires i < |attempts|
    ensures Cursor(attempts[..i], cap) <= |Log(attempts[..i + 1])|
  {
    assert attempts[..i + 1][..i] == attempts[..i];
  }

  /** An attempt gets the next message while no more than `cap` are unread. Beyond that it
      is told of a lag: the excess, which it loses, and nothing more. */
  lemma {:induction false} ReceiveExactly(attempts: seq<Attempt>, cap: nat, i: nat)
    requires i < |attempts|
    ensures var log, at, n := Log(attempts[..i + 1]), Cursor(attempts[..i], cap), Unread(attempts, cap, i);
      && (n == 0 ==> Result(attempts, cap, i) == if attempts[i].closed then Closed else Empty)
      && (1 <= n <= cap ==> Result(attempts, cap, i) == Got(log[at]))
      && (n > cap ==> Result(attempts, cap, i) == Lagged(n - cap))
      && Cursor(attempts[..i + 1], cap) ==
           at + if n == 0 then 0 else if n <= cap then 1 else n - cap
  {
    assert attempts[..i + 1][..i] == attempts[..i];
  }

  /** Nothing is ever lost iff the receiver never falls more than `cap` behind. */
  lemma {:induction false} LossExactly(attempts: seq<Attempt>, cap: nat)
    ensures LagCount(attempts, cap) == 0 <==> forall i :: 0 <= i < |attempts| ==> Unread(attempts, cap, i) <= cap
  {
    if attempts != [] {
      var n := |attempts| - 1;
      LossExactly(attempts[..n], cap);
      assert attempts[..n + 1] == attempts;
      ReceiveExactly(attempts, cap, n);
      forall i | 0 <= i < n ensures Unread(attempts[..n], cap, i) == Unread(attempts, cap, i) {
        assert attempts[..n][..i] == attempts[..i] && attempts[..n][..i + 1] == attempts[..i + 1];
      }
    }
  }

  ghost function Receipts(attempts: seq<Attempt>, cap: nat, n: nat): set<nat>
    requires n <= |attempts|
  {
    set i: nat | i < n && Result(attempts, cap, i).Got?
  }

  lemma {:induction false} GotStep(attempts: seq<Attempt>, cap: nat, n: nat)
    requires n < |attempts|
    ensures GotCount(attempts[..n + 1], cap) ==
            GotCount(attempts[..n], cap) + if Result(attempts, cap, n).Got? then 1 else 0
  {
    assert attempts[..n + 1][..n] == attempts[..n];
  }

  lemma {:induction false} ReceiptsStep(attempts: seq<Attempt>, cap: nat, n: nat)
    requires n < |attempts|
    ensures |Receipts(attempts, cap, n + 1)| ==
            |Receipts(attempts, cap, n)| + if Result(attempts, cap, n).Got? then 1 else 0
  {
    var before, after := Receipts(attempts, cap, n), Receipts(attempts, cap, n + 1);
    assert after == if Result(attempts, cap, n).Got? then before + {n} else before;
  }

  /** What is counted as received is the attempts that got a message. */
  lemma {:induction false} GotExactly(attempts: seq<Attempt>, cap: nat, n: nat)
    requires n <= |attempts|
    ensures GotCount(attempts[..n], cap) == |Receipts(attempts, cap, n)|
  {
    if n == 0 {
      assert attempts[..0] == [];
    } else {
      var m := n - 1;
      GotExactly(attempts, cap, m);
      GotStep(attempts, cap, m);
      ReceiptsStep(attempts, cap, m);
    }
  }

  ghost predicate Delivers(attempts: seq<Attempt>, cap: nat, i: nat) {
    i < |attempts| && Result(attempts, cap, i).Got? && attempts[i].passes && attempts[i].writable
  }

  /** The p-th message sent is what attempt i got, and p were sent before it. */
  ghost predicate SentBy(attempts: seq<Attempt>, cap: nat, i: nat, p: nat) {
    && i < |attempts| && p == |Sent(attempts[..i], cap)| < |Sent(attempts, cap)|
    && Result(attempts, cap, i) == Got(Sent(attempts, cap)[p])
  }

  lemma {:induction false} SentGrows(attempts: seq<Attempt>, cap: nat, n: nat)
    requires n <= |attempts|
    ensures Sent(attempts[..n], cap) <= Sent(attempts, cap)
    decreases |attempts| - n
  {
    if n < |attempts| {
      SentStep(attempts, cap, n);
      SentGrows(attempts, cap, n + 1);
    } else {
      assert attempts[..n] == attempts;
    }
  }

  /** What each delivering attempt got is sent, in order. */
  lemma {:induction false} DeliveredIsSent(attempts: seq<Attempt>, cap: nat, i: nat)
    requires Delivers(attempts, cap, i)
    ensures SentBy(attempts, cap, i, |Sent(attempts[..i], cap)|)
  {
    SentStep(attempts, cap, i);
    SentGrows(attempts, cap, i + 1);
  }

  /** And nothing else is sent. */
  lemma {:induction false} SentIsDelivered(attempts: seq<Attempt>, cap: nat, p: nat) returns (i: nat)
    requires p < |Sent(attempts, cap)|
    ensures Delivers(attempts, cap, i) && SentBy(attempts, cap, i, p)
  {
    assert attempts[..|attempts|] == attempts;
    i := SentBefore(attempts, cap, |attempts|, p);
    SentStep(attempts, cap, i);
    DeliveredIsSent(attempts, cap, i);
  }

  lemma {:induction false} SentBefore(attempts: seq<Attempt>, cap: nat, n: nat, p: nat) returns (i: nat)
    requires n <= |attempts| && p < |Sent(attempts[..n], cap)|
    ensures Delivers(attempts, cap, i) && p == |Sent(attempts[..i], cap)|
    decreases n
  {
    assert n > 0;
    SentStep(attempts, cap, n - 1);
    if p < |Sent(attempts[..n - 1], cap)| {
      i := SentBefore(attempts, cap, n - 1, p);
    } else {
      i := n - 1;
    }
  }

  // ---- The writer ----------------------------------------------------------------------

  datatype Exit = Running | BusClosed | Cancelled | WriteFailed | FlushFailed

  datatype Writer = Writer(
    log: seq<Message>, cursor: nat, written: seq<Byte>, flushed: nat,
    msgsOut: nat, bytesOut: nat, busLagged: nat, errors: nat)

  const FRESH: Writer := Writer([], 0, [], 0, 0, 0, 0, 0)

  /** The writer has done what the plain loop does on the first `n` attempts. */
  ghost predicate Agrees(w: Writer, attempts: seq<Attempt>, cap: nat, n: nat)
    requires n <= |attempts|
  {
    && w.log == Log(attempts[..n]) && w.cursor == Cursor(attempts[..n], cap)
    && SentAgrees(w, attempts, cap, n)
    && w.busLagged == LagCount(attempts[..n], cap)
    && w.flushed <= |w.written|
  }

  ghost predicate SentAgrees(w: Writer, attempts: seq<Attempt>, cap: nat, n: nat)
    requires n <= |attempts|
  {
    var sent := Sent(attempts[..n], cap);
    w.written == Bytes(sent) && w.msgsOut == |sent| && w.bytesOut == |w.written|
  }

  /** A receive moves the cursor and counts what it lost. */
  function Polled(w: Writer, a: Attempt, cap: nat): (Writer, Received)
    requires w.cursor <= |w.log|
  {
    var log := w.log + a.published;
    var (result, cursor) := Receive(log, w.cursor, cap, a.closed);
    (w.(log := log, cursor := cursor, busLagged := w.busLagged + (if result.Lagged? then result.n else 0)), result)
  }

  /** A successful write is counted as one message and its bytes. */
  function Wrote(w: Writer, m: Message): Writer {
    w.(written := w.written + m, msgsOut := w.msgsOut + 1, bytesOut := w.bytesOut + |m|)
  }

  /** What the plain loop does with one receive result. */
  function Handled(w: Writer, a: Attempt, result: Received): Writer {
    if result.Got? && a.passes && a.writable then Wrote(w, result.m) else w
  }

  lemma {:induction false} AgreesStep(w: Writer, attempts: seq<Attempt>, cap: nat, n: nat)
    requires n < |attempts| && Agrees(w, attempts, cap, n)
    ensures var (moved, result) := Polled(w, attempts[n], cap);
      && result == Result(attempts, cap, n)
      && Agrees(Handled(moved, attempts[n], result), attempts, cap, n + 1)
      && moved.log == Log(attempts[..n + 1]) && moved.cursor == Cursor(attempts[..n + 1], cap)
      && moved.busLagged == LagCount(attempts[..n + 1], cap)
      && SentAgrees(moved, attempts, cap, n)
  {
    assert attempts[..n + 1][..n] == attempts[..n];
    var a, result := attempts[n], Polled(w, attempts[n], cap).1;
    assert LastReceive(attempts[..n + 1], cap).0 == result;
    SentStep(attempts, cap, n);
    if result.Got? {
      BytesStep(Sent(attempts[..n], cap), result.m);
    }
  }

  lemma {:induction false} SentStep(attempts: seq<Attempt>, cap: nat, n: nat)
    requires n < |attempts|
    ensures Sent(attempts[..n + 1], cap) ==
      if Result(attempts, cap, n).Got? && attempts[n].passes && attempts[n].writable
      then Sent(attempts[..n], cap) + [Result(attempts, cap, n).m]
      else Sent(attempts[..n], cap)
  {
    assert attempts[..n + 1][..n] == attempts[..n];
    assert Sent(attempts[..n], cap) + [] == Sent(attempts[..n], cap);
  }

  ghost predicate FailedWrite(attempts: seq<Attempt>, cap: nat, served: nat)
    requires served <= |attempts|
  {
    served > 0 && Result(attempts, cap, served - 1).Got? &&
    attempts[served - 1].passes && !attempts[served - 1].writable
  }

  /** Nothing in this attempt ends a batch. */
  ghost predicate GoesOn(attempts: seq<Attempt>, cap: nat, n: nat)
    requires n < |attempts|
  {
    Result(attempts, cap, n) != Empty && Result(attempts, cap, n) != Closed && !FailedWrite(attempts, cap, n + 1)
  }

  // ---- Which receives block, and how the loop ends -------------------------------------

  /** A blocking receive at p that writes, and so opens a batch. */
  ghost predicate Opens(attempts: seq<Attempt>, cap: nat, p: nat) {
    && p < |attempts| && Result(attempts, cap, p).Got?
    && !attempts[p].cancelled && attempts[p].passes && attempts[p].writable
  }

  /** A blocking receive at p after which the loop simply blocks again. */
  ghost predicate Skips(attempts: seq<Attempt>, cap: nat, p: nat) {
    p < |attempts| &&
    match Result(attempts, cap, p)
    case Got(_) => !attempts[p].cancelled && !attempts[p].passes
    case Lagged(_) => true
    case Empty => true
    case Closed => false
  }

  /** The batch opened at p has made the attempts up to q. */
  ghost predicate Batching(attempts: seq<Attempt>, cap: nat, p: nat, q: nat) {
    && Opens(attempts, cap, p) && p < q <= |attempts| && q <= p + 1 + 1_024
    && forall i :: p < i < q - 1 ==> GoesOn(attempts, cap, i)
  }

  /** It is full, or has found the bus empty: a flush is due. */
  ghost predicate BatchDone(attempts: seq<Attempt>, cap: nat, p: nat, q: nat) {
    && Batching(attempts, cap, p, q) && p + 1 < q
    && (Result(attempts, cap, q - 1) == Empty || (GoesOn(attempts, cap, q - 1) && q == p + 1 + 1_024))
  }

  /** The loop blocks at p, and next at q. */
  ghost predicate Round(attempts: seq<Attempt>, cap: nat, flushOk: nat -> bool, p: nat, q: nat) {
    if Opens(attempts, cap, p) then BatchDone(attempts, cap, p, q) && flushOk(q)
    else Skips(attempts, cap, p) && q == p + 1
  }

  /** The loop blocks at p, and ends before q. */
  ghost predicate Stops(attempts: seq<Attempt>, cap: nat, flushOk: nat -> bool, p: nat, q: nat, exit: Exit)
    requires p < q <= |attempts|
  {
    var result, a := Result(attempts, cap, p), attempts[p];
    match exit
    case Running =>
      q == |attempts| &&
      (Round(attempts, cap, flushOk, p, q) ||
       (Batching(attempts, cap, p, q) && !BatchDone(attempts, cap, p, q) &&
        (p + 1 < q ==> GoesOn(attempts, cap, q - 1))))
    case Cancelled => q == p + 1 && result.Got? && a.cancelled
    case BusClosed =>
      || (q == p + 1 && result == Closed)
      || (Batching(attempts, cap, p, q) && p + 1 < q && Result(attempts, cap, q - 1) == Closed)
    case WriteFailed =>
      || (q == p + 1 && result.Got? && !a.cancelled && a.passes && !a.writable)
      || (Batching(attempts, cap, p, q) && p + 1 < q && FailedWrite(attempts, cap, q))
    case FlushFailed => BatchDone(attempts, cap, p, q) && !flushOk(q)
  }

  ghost predicate RoundAt(attempts: seq<Attempt>, cap: nat, flushOk: nat -> bool, blocking: seq<nat>, k: nat)
    requires k + 1 < |blocking|
  {
    Round(attempts, cap, flushOk, blocking[k], blocking[k + 1])
  }

  ghost predicate Rounds(attempts: seq<Attempt>, cap: nat, flushOk: nat -> bool, blocking: seq<nat>) {
    && (blocking != [] ==> blocking[0] == 0)
    && forall k :: 0 <= k < |blocking| - 1 ==> RoundAt(attempts, cap, flushOk, blocking, k)
  }

  /** The receives at `blocking` are those that block, and the loop ends before `served`. */
  ghost predicate Executes(
      attempts: seq<Attempt>, cap: nat, flushOk: nat -> bool, blocking: seq<nat>, served: nat, exit: Exit)
  {
    && served <= |attempts|
    && Rounds(attempts, cap, flushOk, blocking)
    && if blocking == [] then attempts == [] && served == 0 && exit == Running
       else
         var p := blocking[|blocking| - 1];
         p < served && Stops(attempts, cap, flushOk, p, served, exit)
  }

  /** A batch ends at most once: none goes on past its end, and two ends are the same. */
  lemma {:induction false} BatchEnd(attempts: seq<Attempt>, cap: nat, p: nat, q: nat, q': nat)
    requires Batching(attempts, cap, p, q) && Batching(attempts, cap, p, q') && p + 1 < q
    requires !GoesOn(attempts, cap, q - 1) || q == p + 1 + 1_024
    ensures q' <= q
  {
  }

  lemma {:induction false} RoundUnique(
      attempts: seq<Attempt>, cap: nat, flushOk: nat -> bool, p: nat, q: nat, q': nat)
    requires Round(attempts, cap, flushOk, p, q) && Round(attempts, cap, flushOk, p, q')
    ensures q == q'
  {
    if Opens(attempts, cap, p) {
      BatchEnd(attempts, cap, p, q, q');
      BatchEnd(attempts, cap, p, q', q);
    }
  }

  /** The batch is under way at q and has nothing more to do there. */
  ghost predicate Over(attempts: seq<Attempt>, cap: nat, p: nat, q: nat) {
    Batching(attempts, cap, p, q) && p + 1 < q && (!GoesOn(attempts, cap, q - 1) || q == p + 1 + 1_024)
  }

  lemma {:induction false} StopIsOver(
      attempts: seq<Attempt>, cap: nat, flushOk: nat -> bool, p: nat, q: nat, exit: Exit)
    requires p < q <= |attempts| && Stops(attempts, cap, flushOk, p, q, exit) && Opens(attempts, cap, p)
    ensures Batching(attempts, cap, p, q) && (Over(attempts, cap, p, q) || (exit == Running && q == |attempts|))
  {
  }

  lemma {:induction false} SameStop(
      attempts: seq<Attempt>, cap: nat, flushOk: nat -> bool, p: nat, q: nat, exit: Exit, q': nat, exit': Exit)
    requires p < q <= |attempts| && Stops(attempts, cap, flushOk, p, q, exit)
    requires p < q' <= |attempts| && Stops(attempts, cap, flushOk, p, q', exit')
    ensures q == q'
  {
    if Opens(attempts, cap, p) {
      StopIsOver(attempts, cap, flushOk, p, q, exit);
      StopIsOver(attempts, cap, flushOk, p, q', exit');
      if Over(attempts, cap, p, q) {
        BatchEnd(attempts, cap, p, q, q');
      }
      if Over(attempts, cap, p, q') {
        BatchEnd(attempts, cap, p, q', q);
      }
    }
  }

  lemma {:induction false} StopUnique(
      attempts: seq<Attempt>, cap: nat, flushOk: nat -> bool, p: nat, q: nat, exit: Exit, q': nat, exit': Exit)
    requires p < q <= |attempts| && Stops(attempts, cap, flushOk, p, q, exit)
    requires p < q' <= |attempts| && Stops(attempts, cap, flushOk, p, q', exit')
    ensures q == q' && exit == exit'
  {
    SameStop(attempts, cap, flushOk, p, q, exit, q', exit');
  }

  /** A loop that blocks again before the schedule runs out does not end there. */
  lemma {:induction false} RoundOrStop(
      attempts: seq<Attempt>, cap: nat, flushOk: nat -> bool, p: nat, q: nat, end: nat, exit: Exit)
    requires p < q <= |attempts| && Round(attempts, cap, flushOk, p, q)
    requires p < end <= |attempts| && Stops(attempts, cap, flushOk, p, end, exit)
    ensures q == |attempts|
  {
    if Opens(attempts, cap, p) {
      StopIsOver(attempts, cap, flushOk, p, end, exit);
      BatchEnd(attempts, cap, p, q, end);
      if Over(attempts, cap, p, end) {
        BatchEnd(attempts, cap, p, end, q);
      }
    }
  }

  /** Which receives block, where the loop ends and why: the schedule leaves no choice. */
  lemma {:induction false} ExecutionUnique(
      attempts: seq<Attempt>, cap: nat, flushOk: nat -> bool,
      b: seq<nat>, served: nat, exit: Exit, b': seq<nat>, served': nat, exit': Exit)
    requires Executes(attempts, cap, flushOk, b, served, exit)
    requires Executes(attempts, cap, flushOk, b', served', exit')
    ensures b == b' && served == served' && exit == exit'
  {
    if attempts != [] {
      if |b| <= |b'| {
        SameBlocking(attempts, cap, flushOk, b, b', |b|);
        NoneLonger(attempts, cap, flushOk, b, served, exit, b', served', exit');
      } else {
        SameBlocking(attempts, cap, flushOk, b', b, |b'|);
        NoneLonger(attempts, cap, flushOk, b', served', exit', b, served, exit);
      }
      assert b == b';
      StopUnique(attempts, cap, flushOk, b[|b| - 1], served, exit, served', exit');
    }
  }

  lemma {:induction false} NoneLonger(
      attempts: seq<Attempt>, cap: nat, flushOk: nat -> bool,
      b: seq<nat>, served: nat, exit: Exit, b': seq<nat>, served': nat, exit': Exit)
    requires attempts != [] && b != [] && b <= b'
    requires Executes(attempts, cap, flushOk, b, served, exit)
    requires Executes(attempts, cap, flushOk, b', served', exit')
    ensures b == b'
  {
    if |b| < |b'| {
      var k := |b| - 1;
      assert RoundAt(attempts, cap, flushOk, b', k);
      BlockingBelow(attempts, cap, flushOk, b', k + 1);
      RoundOrStop(attempts, cap, flushOk, b[k], b'[k + 1], served, exit);
      assert false;
    }
  }

  /** Blocking receives ascend, and all of them happen. */
  lemma {:induction false} BlockingBelow(
      attempts: seq<Attempt>, cap: nat, flushOk: nat -> bool, blocking: seq<nat>, k: nat)
    requires Rounds(attempts, cap, flushOk, blocking) && k < |blocking|
    requires blocking[|blocking| - 1] < |attempts|
    ensures blocking[k] <= blocking[|blocking| - 1]
    ensures k + 1 < |blocking| ==> blocking[k] < blocking[k + 1]
    decreases |blocking| - k
  {
    if k + 1 < |blocking| {
      BlockingBelow(attempts, cap, flushOk, blocking, k + 1);
      assert RoundAt(attempts, cap, flushOk, blocking, k);
    }
  }

  lemma {:induction false} SameBlocking(
      attempts: seq<Attempt>, cap: nat, flushOk: nat -> bool, b: seq<nat>, b': seq<nat>, n: nat)
    requires Rounds(attempts, cap, flushOk, b) && Rounds(attempts, cap, flushOk, b')
    requires n <= |b| <= |b'|
    ensures b[..n] == b'[..n]
  {
    if n > 0 {
      SameBlocking(attempts, cap, flushOk, b, b', n - 1);
      if n > 1 {
        assert RoundAt(attempts, cap, flushOk, b, n - 2) && RoundAt(attempts, cap, flushOk, b', n - 2);
        assert b[n - 2] == b[..n - 1][n - 2] && b'[n - 2] == b'[..n - 1][n - 2];
        RoundUnique(attempts, cap, flushOk, b[n - 2], b[n - 1], b'[n - 1]);
      }
    }
  }

  /** In particular: a cancelled or closed blocking receive, a failed write and a failed
      flush each end the loop there and then, with their own exit. */
  lemma {:induction false} ExitsObeyed(
      attempts: seq<Attempt>, cap: nat, flushOk: nat -> bool, blocking: seq<nat>, served: nat, exit: Exit, k: nat)
    requires Executes(attempts, cap, flushOk, blocking, served, exit) && k < |blocking|
    ensures var p := blocking[k];
      && p < served
      && (Result(attempts, cap, p).Got? && attempts[p].cancelled ==> p == served - 1 && exit == Cancelled)
      && (Result(attempts, cap, p) == Closed ==> p == served - 1 && exit == BusClosed)
      && (Result(attempts, cap, p).Got? && !attempts[p].cancelled && FailedWrite(attempts, cap, p + 1) ==>
            p == served - 1 && exit == WriteFailed)
  {
    BlockingBelow(attempts, cap, flushOk, blocking, k);
    if k + 1 < |blocking| {
      assert RoundAt(attempts, cap, flushOk, blocking, k);
    }
  }

  lemma {:induction false} FlushObeyed(
      attempts: seq<Attempt>, cap: nat, flushOk: nat -> bool, blocking: seq<nat>, served: nat, exit: Exit,
      k: nat, q: nat)
    requires Executes(attempts, cap, flushOk, blocking, served, exit) && k < |blocking|
    requires BatchDone(attempts, cap, blocking[k], q) && q <= served && !flushOk(q)
    ensures q == served && exit == FlushFailed
  {
    var p := blocking[k];
    BlockingBelow(attempts, cap, flushOk, blocking, k);
    if k + 1 < |blocking| {
      assert RoundAt(attempts, cap, flushOk, blocking, k);
      BatchEnd(attempts, cap, p, blocking[k + 1], q);
      BatchEnd(attempts, cap, p, q, blocking[k + 1]);
    } else {
      StopIsOver(attempts, cap, flushOk, p, served, exit);
      BatchEnd(attempts, cap, p, q, served);
    }
  }

  /** One turn of the batch: a non-blocking receive, the outgoing check, the write. */
  method Turn(before: Writer, attempts: seq<Attempt>, n: nat, cap: nat)
    returns (w: Writer, result: Received, failed: bool)
    requires n < |attempts| && Agrees(before, attempts, cap, n) && before.errors == 0
    ensures Agrees(w, attempts, cap, n + 1) && result == Result(attempts, cap, n)
    ensures failed <==> FailedWrite(attempts, cap, n + 1)
    ensures GoesOn(attempts, cap, n) <==> !failed && result != Empty && result != Closed
    ensures w.flushed == before.flushed
    ensures w.errors == if failed then 1 else 0
  {
    AgreesStep(before, attempts, cap, n);
    var (moved, r) := Polled(before, attempts[n], cap);
    w, result, failed := moved, r, false;
    if result.Got? && attempts[n].passes {
      if attempts[n].writable {
        w := Wrote(w, result.m);
      } else {
        w, failed := w.(errors := 1), true;
      }
    }
  }

  /** The optimistic batch: up to BATCH_SIZE more messages without blocking. It stops on an
      empty bus, and does not look at cancellation. */
  method Batch(before: Writer, attempts: seq<Attempt>, from: nat, cap: nat)
    returns (w: Writer, served: nat, exit: Exit, ended: bool)
    requires from <= |attempts| && Agrees(before, attempts, cap, from) && before.errors == 0
    ensures from <= served <= |attempts| && Agrees(w, attempts, cap, served)
    ensures w.flushed == before.flushed
    ensures exit == Running || exit == BusClosed || exit == WriteFailed
    ensures w.errors == if exit == WriteFailed then 1 else 0
    ensures exit == BusClosed ==> served > from && Result(attempts, cap, served - 1) == Closed
    ensures exit == WriteFailed ==> served > from && FailedWrite(attempts, cap, served)
    // The batch goes on until it is full, or until something ends it.
    ensures served - from <= BATCH_SIZE
    ensures forall i :: from <= i < served - 1 ==> GoesOn(attempts, cap, i)
    ensures exit == Running && ended ==>
      && served > from
      && (Result(attempts, cap, served - 1) == Empty ||
          (GoesOn(attempts, cap, served - 1) && served - from == BATCH_SIZE))
    // Otherwise the schedule ran out in mid-batch.
    ensures exit == Running && !ended ==>
      && served == |attempts| && served - from < BATCH_SIZE
      && (served > from ==> GoesOn(attempts, cap, served - 1))
  {
    w, served, exit, ended := before, from, Running, false;
    var k := 0;
    while k < BATCH_SIZE && served < |attempts|
      invariant from <= served <= |attempts| && Agrees(w, attempts, cap, served)
      invariant w.errors == 0 && w.flushed == before.flushed
      invariant k == served - from <= BATCH_SIZE
      invariant forall i :: from <= i < served ==> GoesOn(attempts, cap, i)
      decreases |attempts| - served
    {
      var result, failed;
      w, result, failed := Turn(w, attempts, served, cap);
      served, k := served + 1, k + 1;
      if failed {
        return w, served, WriteFailed, true;
      } else if result == Closed {
        return w, served, BusClosed, true;
      } else if result == Empty {
        return w, served, Running, true;
      }
    }
    ended := k == BATCH_SIZE;
  }

  /** A blocking receive that yields a message to send: write it, batch, and flush.
      `caughtUp` says that the flush was reached and done. */
  method Deliver(before: Writer, attempts: seq<Attempt>, n: nat, cap: nat, flushOk: nat -> bool)
    returns (w: Writer, served: nat, exit: Exit, caughtUp: bool)
    requires n < |attempts| && Agrees(before, attempts, cap, n) && before.errors == 0
    requires Result(attempts, cap, n).Got? && !attempts[n].cancelled && attempts[n].passes
    ensures n < served <= |attempts| && served <= n + 1 + BATCH_SIZE
    ensures Agrees(w, attempts, cap, served)
    ensures if caughtUp then w.flushed == |w.written| && exit == Running else w.flushed == before.flushed
    ensures w.errors == if exit == WriteFailed || exit == FlushFailed then 1 else 0
    ensures if caughtUp then Round(attempts, cap, flushOk, n, served)
            else Stops(attempts, cap, flushOk, n, served, exit)
    // After a batch that found the bus empty the flush is reached.
    ensures exit == Running && !caughtUp ==> Result(attempts, cap, served - 1) != Empty
  {
    var result, failed;
    w, result, failed := Turn(before, attempts, n, cap);
    served, caughtUp := n + 1, false;
    if failed {
      exit := WriteFailed;
      return;
    }
    assert Opens(attempts, cap, n);
    var ended;
    w, served, exit, ended := Batch(w, attempts, served, cap);
    assert Batching(attempts, cap, n, served);
    if exit != Running || !ended {
      return;
    }
    assert BatchDone(attempts, cap, n, served);
    if !flushOk(served) {
      w, exit := w.(errors := 1), FlushFailed;
      return;
    }
    w, caughtUp := w.(flushed := |w.written|), true;
  }

  /** A receive with nothing to write. After cancellation the message it may have returned
      is dropped. */
  lemma {:induction false} SkipStep(w: Writer, attempts: seq<Attempt>, cap: nat, n: nat)
    requires n < |attempts| && Agrees(w, attempts, cap, n)
    requires !Result(attempts, cap, n).Got? || attempts[n].cancelled || !attempts[n].passes
    ensures var moved := Polled(w, attempts[n], cap).0;
      && moved.log == Log(attempts[..n + 1]) && moved.cursor == Cursor(attempts[..n + 1], cap)
      && moved.busLagged == LagCount(attempts[..n + 1], cap)
      && moved.flushed == w.flushed && moved.written == w.written && moved.errors == w.errors
      && SentAgrees(moved, attempts, cap, n)
      && (!Result(attempts, cap, n).Got? || !attempts[n].passes ==> Agrees(moved, attempts, cap, n + 1))
  {
    AgreesStep(w, attempts, cap, n);
  }

  /** What holds after `served` attempts, however the loop got there. A message received
      just before cancellation is dropped. */
  ghost predicate Accounted(w: Writer, attempts: seq<Attempt>, cap: nat, served: nat, exit: Exit)
    requires served <= |attempts|
  {
    && w.log == Log(attempts[..served]) && w.cursor == Cursor(attempts[..served], cap)
    && w.busLagged == LagCount(attempts[..served], cap)
    && (exit == Cancelled ==> served > 0)
    && SentAgrees(w, attempts, cap, if exit == Cancelled then served - 1 else served)
    && w.errors == if exit == WriteFailed || exit == FlushFailed then 1 else 0
  }

  /** One turn of the loop: block at n, and come back to block again or leave. */
  method OneRound(before: Writer, attempts: seq<Attempt>, n: nat, cap: nat, flushOk: nat -> bool)
    returns (w: Writer, served: nat, exit: Exit, again: bool)
    requires n < |attempts| && Agrees(before, attempts, cap, n)
    requires before.errors == 0 && before.flushed == |before.written|
    ensures n < served <= |attempts| && served <= n + 1 + BATCH_SIZE
    ensures Accounted(w, attempts, cap, served, exit)
    ensures if again
      then exit == Running && Round(attempts, cap, flushOk, n, served) && w.flushed == |w.written|
      else Stops(attempts, cap, flushOk, n, served, exit) && w.flushed == before.flushed
    ensures exit == Running && !again ==> Result(attempts, cap, served - 1) != Empty
  {
    var a := attempts[n];
    var (moved, result) := Polled(before, a, cap);
    assert result == Result(attempts, cap, n) by { AgreesStep(before, attempts, cap, n); }
    if result.Got? && !a.cancelled && a.passes {
      w, served, exit, again := Deliver(before, attempts, n, cap, flushOk);
      return;
    }
    SkipStep(before, attempts, cap, n);
    w, served, exit, again := moved, n + 1, Running, false;
    if result.Got? && a.cancelled {
      exit := Cancelled;
    } else if result == Closed {
      exit := BusClosed;
    } else {
      again := true;
    }
  }

  /** The writer loop over a finite schedule. It is left `Running` when the
      schedule runs out, so its contract speaks about every moment of every run. */
  method WriterLoop(attempts: seq<Attempt>, cap: nat, flushOk: nat -> bool)
    returns (w: Writer, served: nat, exit: Exit, clean: nat, ghost blocking: seq<nat>)
    // Which receives block, where the loop ends and why.
    ensures Executes(attempts, cap, flushOk, blocking, served, exit)
    // What it has received, sent and counted by then.
    ensures Accounted(w, attempts, cap, served, exit)
    // Nothing is left unflushed when the loop has found the bus empty and blocks.
    ensures exit == Running && served > 0 && Result(attempts, cap, served - 1) == Empty ==>
      w.flushed == |w.written|
    // Everything sent in the first `clean` attempts is flushed, and at most one receive and
    // one batch have passed since.
    ensures clean <= served <= clean + 1 + BATCH_SIZE
    ensures w.flushed == |Bytes(Sent(attempts[..clean], cap))|
  {
    w, served, exit, clean, blocking := FRESH, 0, Running, 0, [];
    while served < |attempts|
      invariant served <= |attempts| && Accounted(w, attempts, cap, served, Running)
      invariant w.flushed == |w.written| && exit == Running
      invariant Rounds(attempts, cap, flushOk, blocking)
      invariant if blocking == [] then served == 0 else ReachedFrom(attempts, cap, flushOk, blocking, served)
    {
      clean := served;
      BlockHere(attempts, cap, flushOk, blocking, served);
      blocking := blocking + [served];
      var again;
      w, served, exit, again := OneRound(w, attempts, served, cap, flushOk);
      if !again {
        return;
      }
    }
    clean := served;
  }

  /** The loop has come round from its last blocking receive to `served`. */
  ghost predicate ReachedFrom(
      attempts: seq<Attempt>, cap: nat, flushOk: nat -> bool, blocking: seq<nat>, served: nat)
    requires blocking != []
  {
    blocking[|blocking| - 1] < served && Round(attempts, cap, flushOk, blocking[|blocking| - 1], served)
  }

  lemma {:induction false} BlockHere(
      attempts: seq<Attempt>, cap: nat, flushOk: nat -> bool, blocking: seq<nat>, served: nat)
    requires Rounds(attempts, cap, flushOk, blocking)
    requires if blocking == [] then served == 0 else ReachedFrom(attempts, cap, flushOk, blocking, served)
    ensures Rounds(attempts, cap, flushOk, blocking + [served])
  {
    var grown := blocking + [served];
    forall k | 0 <= k < |grown| - 1 ensures RoundAt(attempts, cap, flushOk, grown, k) {
      if k < |blocking| - 1 {
        assert RoundAt(attempts, cap, flushOk, blocking, k);
      }
    }
  }

  /** What the exits mean. */
  lemma {:induction false} ExitMeans(
      attempts: seq<Attempt>, cap: nat, flushOk: nat -> bool, blocking: seq<nat>, served: nat, exit: Exit)
    requires Executes(attempts, cap, flushOk, blocking, served, exit)
    ensures match exit
      case Running => served == |attempts|
      case BusClosed => served > 0 && Result(attempts, cap, served - 1) == Closed
      case Cancelled => served > 0 && Result(attempts, cap, served - 1).Got? && attempts[served - 1].cancelled
      case WriteFailed => FailedWrite(attempts, cap, served)
      case FlushFailed => !flushOk(served)
  {
  }
}

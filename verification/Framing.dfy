// Cutting a byte stream into frames. The two frame decoders are abstract: on success they
// consume at least one and at most all of the bytes they are given.
module Framing {
  import opened Basics

  const MAX_BUFFER_SIZE: nat := 1024 * 1024
  const STX_V2: Byte := 0xFD
  const STX_V1: Byte := 0xFE

  datatype Decoded = Complete(len: nat) | Truncated | Malformed

  datatype Version = V1 | V2

  datatype Decoders = Decoders(v2: seq<Byte> -> Decoded, v1: seq<Byte> -> Decoded)
  {
    ghost predicate WellBehaved() {
      forall b: seq<Byte> :: b != [] ==>
        (v2(b).Complete? ==> 1 <= v2(b).len <= |b|) && (v1(b).Complete? ==> 1 <= v1(b).len <= |b|)
    }
  }

  /** What became of a stretch of input. */
  datatype Piece =
    | Frame(version: Version, raw: seq<Byte>)
    | Overflow(lost: seq<Byte>)
    | Noise(skipped: seq<Byte>)
    | Rejected(stx: Byte)
  {
    function Bytes(): seq<Byte> {
      match this
      case Frame(_, raw) => raw
      case Overflow(lost) => lost
      case Noise(skipped) => skipped
      case Rejected(stx) => [stx]
    }
  }

  function Flatten(pieces: seq<Piece>): seq<Byte> {
    if pieces == [] then [] else pieces[0].Bytes() + Flatten(pieces[1..])
  }

  lemma {:induction false} FlattenConcat(a: seq<Piece>, b: seq<Piece>)
    ensures Flatten(a + b) == Flatten(a) + Flatten(b)
  {
    if a == [] {
      assert a + b == b;
    } else {
      assert (a + b)[1..] == a[1..] + b;
      FlattenConcat(a[1..], b);
      Associative(a[0].Bytes(), Flatten(a[1..]), Flatten(b));
    }
  }

  predicate IsStx(b: Byte) {
    b == STX_V2 || b == STX_V1
  }

  lemma {:induction false} LedgerStep(ledger: seq<Piece>, p: Piece, buffer: seq<Byte>)
    requires p.Bytes() <= buffer
    ensures Flatten(ledger + [p]) + buffer[|p.Bytes()|..] == Flatten(ledger) + buffer
  {
    FlattenConcat(ledger, [p]);
    assert Flatten([p]) == p.Bytes() + Flatten([]);
    assert buffer == p.Bytes() + buffer[|p.Bytes()|..];
    Associative(Flatten(ledger), p.Bytes(), buffer[|p.Bytes()|..]);
  }

  function FirstStx(buf: seq<Byte>): (i: nat)
    ensures i <= |buf|
    ensures forall j :: 0 <= j < i ==> !IsStx(buf[j])
    ensures i < |buf| ==> IsStx(buf[i])
  {
    if buf == [] || IsStx(buf[0]) then 0 else 1 + FirstStx(buf[1..])
  }

  // ---- What a parse must explain -------------------------------------------------------

  /** The piece is right for a buffer that starts with it. Version 2 is tried first; a
      start byte is rejected only if both decoders call what follows malformed. */
  ghost predicate Justified(d: Decoders, p: Piece, buf: seq<Byte>) {
    && p.Bytes() != [] && |p.Bytes()| <= |buf| && p.Bytes() == buf[..|p.Bytes()|]
    && match p
       case Frame(V2, raw) => IsStx(buf[0]) && d.v2(buf) == Complete(|raw|)
       case Frame(V1, raw) => IsStx(buf[0]) && !d.v2(buf).Complete? && d.v1(buf) == Complete(|raw|)
       case Noise(skipped) =>
         && (forall b :: b in skipped ==> !IsStx(b))
         && (|skipped| < |buf| ==> IsStx(buf[|skipped|]))
       case Rejected(_) => IsStx(buf[0]) && d.v2(buf).Malformed? && d.v1(buf).Malformed?
       case Overflow(_) => false
  }

  /** What a piece says about its own bytes, wherever it stands. */
  ghost predicate Sound(p: Piece) {
    match p
    case Frame(_, raw) => raw != [] && IsStx(raw[0])
    case Overflow(lost) => lost != []
    case Noise(skipped) => skipped != [] && forall b :: b in skipped ==> !IsStx(b)
    case Rejected(stx) => IsStx(stx)
  }

  ghost predicate AllSound(ledger: seq<Piece>) {
    forall i :: 0 <= i < |ledger| ==> Sound(ledger[i])
  }

  /** Nothing more can be read: the buffer is empty or holds the start of a frame. */
  ghost predicate Waiting(d: Decoders, buf: seq<Byte>) {
    buf == [] ||
    (IsStx(buf[0]) && !d.v2(buf).Complete? && !d.v1(buf).Complete? &&
     (d.v2(buf).Truncated? || d.v1(buf).Truncated?))
  }

  /** `pieces` cut the front off `buf`, each justified where it stands, and leave `rest`. */
  ghost predicate Cuts(d: Decoders, buf: seq<Byte>, pieces: seq<Piece>, rest: seq<Byte>) {
    if pieces == [] then rest == buf
    else Justified(d, pieces[0], buf) && Cuts(d, buf[|pieces[0].Bytes()|..], pieces[1..], rest)
  }

  /** The frame a sequence of pieces ends with, if it does. */
  function LastFrame(pieces: seq<Piece>): Option<Piece> {
    if pieces != [] && pieces[|pieces| - 1].Frame? then Some(pieces[|pieces| - 1]) else None
  }

  /** One parse: it ends at the first frame, or when there is nothing more to read. */
  ghost predicate Explains(d: Decoders, buf: seq<Byte>, pieces: seq<Piece>, rest: seq<Byte>) {
    && Cuts(d, buf, pieces, rest)
    && (forall i :: 0 <= i < |pieces| - 1 ==> !pieces[i].Frame?)
    && (LastFrame(pieces) == None ==> Waiting(d, rest))
  }

  /** Parse after parse, until there is nothing more to read. */
  ghost predicate Drains(d: Decoders, buf: seq<Byte>, pieces: seq<Piece>, rest: seq<Byte>) {
    Cuts(d, buf, pieces, rest) && Waiting(d, rest)
  }

  lemma {:induction false} CutsConcat(
      d: Decoders, buf: seq<Byte>, p: seq<Piece>, mid: seq<Byte>, q: seq<Piece>, rest: seq<Byte>)
    requires Cuts(d, buf, p, mid) && Cuts(d, mid, q, rest)
    ensures Cuts(d, buf, p + q, rest)
    decreases |p|
  {
    if p == [] {
      assert p + q == q;
    } else {
      var all := p + q;
      assert all[0] == p[0] && all[1..] == p[1..] + q;
      CutsConcat(d, buf[|p[0].Bytes()|..], p[1..], mid, q, rest);
    }
  }

  lemma {:induction false} CutsConserve(d: Decoders, buf: seq<Byte>, pieces: seq<Piece>, rest: seq<Byte>)
    requires Cuts(d, buf, pieces, rest)
    ensures Flatten(pieces) + rest == buf
    decreases |pieces|
  {
    if pieces != [] {
      var head := pieces[0].Bytes();
      assert buf == head + buf[|head|..];
      CutsConserve(d, buf[|head|..], pieces[1..], rest);
      Associative(head, Flatten(pieces[1..]), rest);
    }
  }

  lemma {:induction false} CutsShrink(d: Decoders, buf: seq<Byte>, pieces: seq<Piece>, rest: seq<Byte>)
    requires Cuts(d, buf, pieces, rest)
    ensures if pieces == [] then rest == buf else |rest| < |buf|
    decreases |pieces|
  {
    if pieces != [] {
      CutsShrink(d, buf[|pieces[0].Bytes()|..], pieces[1..], rest);
    }
  }

  lemma {:induction false} SamePiece(d: Decoders, p: Piece, q: Piece, buf: seq<Byte>)
    requires Justified(d, p, buf) && Justified(d, q, buf)
    ensures p == q
  {
  }

  /** There is no choice in cutting: a shorter cut is the beginning of a longer one. */
  lemma {:induction false} CutsAgree(
      d: Decoders, buf: seq<Byte>, p: seq<Piece>, pr: seq<Byte>, q: seq<Piece>, qr: seq<Byte>)
    requires Cuts(d, buf, p, pr) && Cuts(d, buf, q, qr) && |p| <= |q|
    ensures p == q[..|p|] && Cuts(d, pr, q[|p|..], qr)
    decreases |p|
  {
    if p != [] {
      SamePiece(d, p[0], q[0], buf);
      CutsAgree(d, buf[|p[0].Bytes()|..], p[1..], pr, q[1..], qr);
      assert p == [p[0]] + p[1..] && q[..|p|] == [q[0]] + q[1..][..|p| - 1];
      assert q[1..][|p| - 1..] == q[|p|..];
    } else {
      assert q[0..] == q;
    }
  }

  /** A cut cannot go on past a point where the parser has to wait. */
  lemma {:induction false} WaitingIsStuck(d: Decoders, buf: seq<Byte>, pieces: seq<Piece>, rest: seq<Byte>)
    requires Waiting(d, buf) && Cuts(d, buf, pieces, rest)
    ensures pieces == [] && rest == buf
  {
  }

  /** There is only one way to explain a buffer. */
  lemma {:induction false} ExplanationUnique(
      d: Decoders, buf: seq<Byte>, p: seq<Piece>, pr: seq<Byte>, q: seq<Piece>, qr: seq<Byte>)
    requires Explains(d, buf, p, pr) && Explains(d, buf, q, qr)
    ensures p == q && pr == qr
  {
    if |p| <= |q| {
      ShorterIsSame(d, buf, p, pr, q, qr);
    } else {
      ShorterIsSame(d, buf, q, qr, p, pr);
    }
  }

  lemma {:induction false} ShorterIsSame(
      d: Decoders, buf: seq<Byte>, p: seq<Piece>, pr: seq<Byte>, q: seq<Piece>, qr: seq<Byte>)
    requires Explains(d, buf, p, pr) && Explains(d, buf, q, qr) && |p| <= |q|
    ensures p == q && pr == qr
  {
    CutsAgree(d, buf, p, pr, q, qr);
    if LastFrame(p).Some? {
      assert q[|p| - 1] == p[|p| - 1];
      assert |p| == |q|;
    } else {
      WaitingIsStuck(d, pr, q[|p|..], qr);
    }
    assert q[..|p|] == q;
  }

  /** There is only one way to drain a buffer. */
  lemma {:induction false} DrainUnique(
      d: Decoders, buf: seq<Byte>, p: seq<Piece>, pr: seq<Byte>, q: seq<Piece>, qr: seq<Byte>)
    requires Drains(d, buf, p, pr) && Drains(d, buf, q, qr)
    ensures p == q && pr == qr
  {
    if |p| <= |q| {
      CutsAgree(d, buf, p, pr, q, qr);
      WaitingIsStuck(d, pr, q[|p|..], qr);
      assert q[..|p|] == q;
    } else {
      CutsAgree(d, buf, q, qr, p, pr);
      WaitingIsStuck(d, qr, p[|q|..], pr);
    }
  }

  function Frames(pieces: seq<Piece>): seq<Piece> {
    if pieces == [] then []
    else Frames(pieces[..|pieces| - 1]) + (if pieces[|pieces| - 1].Frame? then [pieces[|pieces| - 1]] else [])
  }

  lemma {:induction false} FramesConcat(a: seq<Piece>, b: seq<Piece>)
    ensures Frames(a + b) == Frames(a) + Frames(b)
    decreases |b|
  {
    if b == [] {
      assert a + b == a;
    } else {
      FramesConcat(a, b[..|b| - 1]);
      assert (a + b)[..|a + b| - 1] == a + b[..|b| - 1];
    }
  }

  function Entry(piece: Option<Piece>): seq<Piece> {
    if piece.Some? then [piece.value] else []
  }

  /** One parse emits at most one frame: its last piece. */
  lemma {:induction false} FramesOfParse(pieces: seq<Piece>)
    requires forall i :: 0 <= i < |pieces| - 1 ==> !pieces[i].Frame?
    ensures Frames(pieces) == Entry(LastFrame(pieces))
  {
    if pieces != [] {
      FramesOfParse(pieces[..|pieces| - 1]);
    }
  }

  /** A parse still under way: no frame so far. */
  ghost predicate Continues(d: Decoders, start: seq<Byte>, done: seq<Piece>, left: seq<Byte>) {
    Cuts(d, start, done, left) && |left| <= |start| && forall i :: 0 <= i < |done| ==> !done[i].Frame?
  }

  /** Carry a parse on by at most one piece. */
  lemma {:induction false} AfterPiece(
      d: Decoders, start: seq<Byte>, done: seq<Piece>, was: seq<Byte>, next: seq<Piece>, now: seq<Byte>)
    requires Continues(d, start, done, was) && Cuts(d, was, next, now) && |next| <= 1
    ensures if next == [] then now == was else |now| < |was|
    ensures LastFrame(next) == None ==> Continues(d, start, done + next, now)
    ensures LastFrame(next).Some? || Waiting(d, now) ==>
      Explains(d, start, done + next, now) && LastFrame(done + next) == LastFrame(next)
  {
    CutsConcat(d, start, done, was, next, now);
    CutsShrink(d, was, next, now);
    if next == [] {
      assert done + next == done;
    }
  }

  // ---- The ledger of a whole stream ----------------------------------------------------

  /** The piece a buffer starts with, when there is something to read. */
  ghost function FirstPiece(d: Decoders, buf: seq<Byte>): (p: Piece)
    requires d.WellBehaved() && !Waiting(d, buf)
    ensures Justified(d, p, buf)
  {
    if !IsStx(buf[0]) then Noise(buf[..FirstStx(buf)])
    else if d.v2(buf).Complete? then Frame(V2, buf[..d.v2(buf).len])
    else if d.v1(buf).Complete? then Frame(V1, buf[..d.v1(buf).len])
    else Rejected(buf[0])
  }

  /** The pieces a buffer drains into, and what stays in it. */
  ghost function Segment(d: Decoders, buf: seq<Byte>): (r: (seq<Piece>, seq<Byte>))
    requires d.WellBehaved()
    ensures Drains(d, buf, r.0, r.1)
    decreases |buf|
  {
    if Waiting(d, buf) then ([], buf)
    else
      var p := FirstPiece(d, buf);
      var (pieces, rest) := Segment(d, buf[|p.Bytes()|..]);
      ([p] + pieces, rest)
  }

  /** How many buffered bytes a push drops, and how the ledger shows it. */
  function Lost(buffered: nat, incoming: nat): (n: nat)
    ensures n <= buffered
  {
    Min(Minus(buffered + incoming, MAX_BUFFER_SIZE), buffered)
  }

  /** Nothing is dropped while everything fits; otherwise the newest mebibyte is kept, or
      the whole chunk if that is larger. */
  lemma {:induction false} OldestGiveWay(buffer: seq<Byte>, data: seq<Byte>)
    ensures var lost, all := Lost(|buffer|, |data|), buffer + data;
      if |all| <= 1_048_576 then lost == 0
      else
        && buffer[lost..] + data == all[|all| - Max(1_048_576, |data|)..]
        && buffer[..lost] == all[..|all| - Max(1_048_576, |data|)]
  {
  }

  function Discard(lost: seq<Byte>): seq<Piece> {
    if lost == [] then [] else [Overflow(lost)]
  }

  function Joined(chunks: seq<seq<Byte>>): seq<Byte> {
    if chunks == [] then [] else Joined(chunks[..|chunks| - 1]) + chunks[|chunks| - 1]
  }

  /** Ledger and buffer after a chunk: what it displaced, then what the buffer drains into. */
  ghost function AfterChunk(d: Decoders, ledger: seq<Piece>, buffer: seq<Byte>, data: seq<Byte>)
    : (seq<Piece>, seq<Byte>)
    requires d.WellBehaved()
  {
    var lost := Lost(|buffer|, |data|);
    var (pieces, rest) := Segment(d, buffer[lost..] + data);
    (ledger + Discard(buffer[..lost]) + pieces, rest)
  }

  /** Ledger and buffer after a stream of chunks. */
  ghost function Stream(d: Decoders, ledger: seq<Piece>, buffer: seq<Byte>, chunks: seq<seq<Byte>>)
    : (seq<Piece>, seq<Byte>)
    requires d.WellBehaved()
  {
    if chunks == [] then (ledger, buffer)
    else
      var (ledger', buffer') := Stream(d, ledger, buffer, chunks[..|chunks| - 1]);
      AfterChunk(d, ledger', buffer', chunks[|chunks| - 1])
  }

  lemma {:induction false} ChunkConserves(d: Decoders, ledger: seq<Piece>, buffer: seq<Byte>, data: seq<Byte>)
    requires d.WellBehaved()
    ensures var (ledger', rest) := AfterChunk(d, ledger, buffer, data);
      Flatten(ledger') + rest == Flatten(ledger) + buffer + data
  {
    var lost := Lost(|buffer|, |data|);
    var kept := buffer[lost..] + data;
    var (pieces, rest) := Segment(d, kept);
    CutsConserve(d, kept, pieces, rest);
    KeptIsRest(ledger, buffer, lost, data);
    FlattenConcat(ledger + Discard(buffer[..lost]), pieces);
    Associative(Flatten(ledger + Discard(buffer[..lost])), Flatten(pieces), rest);
  }

  lemma {:induction false} FlattenDiscard(lost: seq<Byte>)
    ensures Flatten(Discard(lost)) == lost
  {
    if lost != [] {
      assert Discard(lost)[1..] == [];
    }
  }

  lemma {:induction false} Regroup(a: seq<Byte>, b: seq<Byte>, n: nat, c: seq<Byte>)
    requires n <= |b|
    ensures a + b[..n] + (b[n..] + c) == a + b + c
  {
  }

  /** No byte is lost silently: whatever the chunks, the pieces of the ledger and the
      buffer are exactly the input. */
  lemma {:induction false} StreamConserves(d: Decoders, chunks: seq<seq<Byte>>)
    requires d.WellBehaved()
    ensures var (ledger, buffer) := Stream(d, [], [], chunks);
      Flatten(ledger) + buffer == Joined(chunks)
  {
    if chunks != [] {
      var front := chunks[..|chunks| - 1];
      StreamConserves(d, front);
      var (ledger, buffer) := Stream(d, [], [], front);
      ChunkConserves(d, ledger, buffer, chunks[|chunks| - 1]);
    }
  }

  /** Chunk n finds bytes in the buffer and would take it past one mebibyte; i is where the
      ledger stands at that moment. */
  ghost predicate OverflowsAt(d: Decoders, chunks: seq<seq<Byte>>, n: nat, i: nat)
    requires d.WellBehaved() && n < |chunks|
  {
    var (was, buffer) := Stream(d, [], [], chunks[..n]);
    i == |was| && buffer != [] && |buffer| + |chunks[n]| > 1_048_576
  }

  ghost predicate OverflowsSomewhere(d: Decoders, chunks: seq<seq<Byte>>, i: nat)
    requires d.WellBehaved()
  {
    exists n: nat :: n < |chunks| && OverflowsAt(d, chunks, n, i)
  }

  lemma {:induction false} CutsNoOverflow(d: Decoders, buf: seq<Byte>, pieces: seq<Piece>, rest: seq<Byte>)
    requires Cuts(d, buf, pieces, rest)
    ensures forall i :: 0 <= i < |pieces| ==> !pieces[i].Overflow?
    decreases |pieces|
  {
    if pieces != [] {
      CutsNoOverflow(d, buf[|pieces[0].Bytes()|..], pieces[1..], rest);
    }
  }

  /** What one chunk drops: nothing while the buffer fits, else the oldest bytes beyond one
      mebibyte, and no more than there are. */
  lemma {:induction false} ChunkOverflow(d: Decoders, ledger: seq<Piece>, buffer: seq<Byte>, data: seq<Byte>)
    requires d.WellBehaved()
    ensures var grown, full := AfterChunk(d, ledger, buffer, data).0, |buffer| + |data| > 1_048_576;
      && ledger <= grown
      && (full && buffer != [] ==>
            && |grown| > |ledger|
            && grown[|ledger|] == Overflow(buffer[..Min(|buffer| + |data| - 1_048_576, |buffer|)]))
      && forall i :: |ledger| <= i < |grown| ==>
           (grown[i].Overflow? <==> i == |ledger| && full && buffer != [])
  {
    var lost := Lost(|buffer|, |data|);
    var (pieces, rest) := Segment(d, buffer[lost..] + data);
    CutsNoOverflow(d, buffer[lost..] + data, pieces, rest);
  }

  lemma {:induction false} StreamStep(d: Decoders, chunks: seq<seq<Byte>>, n: nat)
    requires d.WellBehaved() && n < |chunks|
    ensures var (was, buffer) := Stream(d, [], [], chunks[..n]);
      Stream(d, [], [], chunks[..n + 1]) == AfterChunk(d, was, buffer, chunks[n])
  {
    assert chunks[..n + 1][..n] == chunks[..n];
  }

  lemma {:induction false} StreamGrows(d: Decoders, chunks: seq<seq<Byte>>, n: nat)
    requires d.WellBehaved() && n <= |chunks|
    ensures Stream(d, [], [], chunks[..n]).0 <= Stream(d, [], [], chunks).0
    decreases |chunks| - n
  {
    if n < |chunks| {
      var (was, buffer) := Stream(d, [], [], chunks[..n]);
      StreamStep(d, chunks, n);
      ChunkOverflow(d, was, buffer, chunks[n]);
      StreamGrows(d, chunks, n + 1);
    } else {
      assert chunks[..n] == chunks;
    }
  }

  /** Over any stream, bytes overflow exactly at the chunks that would take a buffer that
      holds bytes past one mebibyte. */
  lemma {:induction false} OverflowExactly(d: Decoders, chunks: seq<seq<Byte>>, i: nat)
    requires d.WellBehaved()
    ensures var ledger := Stream(d, [], [], chunks).0;
      i < |ledger| && ledger[i].Overflow? <==> OverflowsSomewhere(d, chunks, i)
  {
    if OverflowsSomewhere(d, chunks, i) {
      var n: nat :| n < |chunks| && OverflowsAt(d, chunks, n, i);
      OverflowIsExcess(d, chunks, n, i);
    }
    var ledger := Stream(d, [], [], chunks).0;
    if i < |ledger| && ledger[i].Overflow? {
      assert chunks[..|chunks|] == chunks;
      var n := OverflowHasChunk(d, chunks, |chunks|, i);
      assert OverflowsAt(d, chunks, n, i);
    }
  }

  lemma {:induction false} OverflowNow(d: Decoders, chunks: seq<seq<Byte>>, n: nat, i: nat)
    requires d.WellBehaved() && n < |chunks| && OverflowsAt(d, chunks, n, i)
    ensures var grown, buffer := Stream(d, [], [], chunks[..n + 1]).0, Stream(d, [], [], chunks[..n]).1;
      && i < |grown|
      && grown[i] == Overflow(buffer[..Min(|buffer| + |chunks[n]| - 1_048_576, |buffer|)])
  {
    var (was, buffer) := Stream(d, [], [], chunks[..n]);
    StreamStep(d, chunks, n);
    ChunkOverflow(d, was, buffer, chunks[n]);
  }

  /** And what overflows then is exactly the excess, oldest bytes first, or all there is. */
  lemma {:induction false} OverflowIsExcess(d: Decoders, chunks: seq<seq<Byte>>, n: nat, i: nat)
    requires d.WellBehaved() && n < |chunks| && OverflowsAt(d, chunks, n, i)
    ensures var ledger, buffer := Stream(d, [], [], chunks).0, Stream(d, [], [], chunks[..n]).1;
      && i < |ledger|
      && ledger[i] == Overflow(buffer[..Min(|buffer| + |chunks[n]| - 1_048_576, |buffer|)])
  {
    OverflowNow(d, chunks, n, i);
    StreamGrows(d, chunks, n + 1);
  }

  lemma {:induction false} NewOverflow(d: Decoders, chunks: seq<seq<Byte>>, n: nat, i: nat)
    requires d.WellBehaved() && n < |chunks|
    requires var was, grown := Stream(d, [], [], chunks[..n]).0, Stream(d, [], [], chunks[..n + 1]).0;
      |was| <= i < |grown| && grown[i].Overflow?
    ensures OverflowsAt(d, chunks, n, i)
  {
    var (was, buffer) := Stream(d, [], [], chunks[..n]);
    StreamStep(d, chunks, n);
    ChunkOverflow(d, was, buffer, chunks[n]);
  }

  lemma {:induction false} OlderPiece(d: Decoders, chunks: seq<seq<Byte>>, n: nat, i: nat)
    requires d.WellBehaved() && n < |chunks|
    ensures var was, grown := Stream(d, [], [], chunks[..n]).0, Stream(d, [], [], chunks[..n + 1]).0;
      i < |was| ==> i < |grown| && grown[i] == was[i]
  {
    var (was, buffer) := Stream(d, [], [], chunks[..n]);
    StreamStep(d, chunks, n);
    ChunkOverflow(d, was, buffer, chunks[n]);
  }

  lemma {:induction false} OverflowHasChunk(d: Decoders, chunks: seq<seq<Byte>>, m: nat, i: nat) returns (n: nat)
    requires d.WellBehaved() && m <= |chunks|
    requires i < |Stream(d, [], [], chunks[..m]).0| && Stream(d, [], [], chunks[..m]).0[i].Overflow?
    ensures n < m && OverflowsAt(d, chunks, n, i)
    decreases m
  {
    assert m > 0;
    n := m - 1;
    if i < |Stream(d, [], [], chunks[..n]).0| {
      OlderPiece(d, chunks, n, i);
      n := OverflowHasChunk(d, chunks, n, i);
    } else {
      NewOverflow(d, chunks, n, i);
    }
  }

  /** The i-th piece is right for all the input from its offset on that had arrived with
      some first n chunks: a frame is what the decoders took there, a start byte was
      rejected by both, and so on. Only an overflow needs no decoder. */
  ghost predicate JustifiedInStream(d: Decoders, ledger: seq<Piece>, i: nat, chunks: seq<seq<Byte>>)
    requires i < |ledger|
  {
    exists n :: 0 <= n <= |chunks| && JustifiedBy(d, ledger, i, chunks, n)
  }

  ghost predicate JustifiedBy(d: Decoders, ledger: seq<Piece>, i: nat, chunks: seq<seq<Byte>>, n: nat)
    requires i < |ledger| && n <= |chunks|
  {
    match ledger[i]
    case Overflow(lost) => HasAt(Joined(chunks[..n]), |Flatten(ledger[..i])|, lost)
    case p => ParsedAt(d, Joined(chunks[..n]), |Flatten(ledger[..i])|, p)
  }

  ghost predicate ParsedAt(d: Decoders, input: seq<Byte>, from: nat, p: Piece) {
    from <= |input| && Justified(d, p, input[from..])
  }

  predicate HasAt(input: seq<Byte>, from: nat, part: seq<Byte>) {
    from + |part| <= |input| && input[from..from + |part|] == part
  }

  ghost predicate AllJustified(d: Decoders, ledger: seq<Piece>, chunks: seq<seq<Byte>>) {
    forall i :: 0 <= i < |ledger| ==> JustifiedInStream(d, ledger, i, chunks)
  }

  /** Over any stream every piece is a slice of the input at the offset its predecessors
      fill, justified there. Frames are contiguous, in order, and overlap nothing. */
  lemma {:induction false} EveryPieceJustified(d: Decoders, chunks: seq<seq<Byte>>)
    requires d.WellBehaved()
    ensures AllJustified(d, Stream(d, [], [], chunks).0, chunks)
  {
    if chunks != [] {
      var front, data := chunks[..|chunks| - 1], chunks[|chunks| - 1];
      assert chunks == front + [data];
      EveryPieceJustified(d, front);
      StreamConserves(d, front);
      var (was, buffer) := Stream(d, [], [], front);
      var lost := Lost(|buffer|, |data|);
      var kept := buffer[lost..] + data;
      var (pieces, rest) := Segment(d, kept);
      JoinedStep(front, data);
      KeptIsRest(was, buffer, lost, data);
      if lost > 0 {
        OverflowJustified(d, was, buffer, lost, data, pieces, chunks);
      }
      forall j | 0 <= j < |pieces| ensures ParsedIn(d, kept, pieces, j) {
        CutJustified(d, kept, pieces, rest, j);
      }
      AddPieces(d, was, chunks, was + Discard(buffer[..lost]), Joined(chunks), kept, pieces);
    }
  }

  /** A chunk adds what it displaced, and then the pieces the buffer drains into. */
  lemma {:induction false} AddPieces(
      d: Decoders, was: seq<Piece>, chunks: seq<seq<Byte>>,
      before: seq<Piece>, input: seq<Byte>, kept: seq<Byte>, pieces: seq<Piece>)
    requires chunks != [] && AllJustified(d, was, chunks[..|chunks| - 1])
    requires was <= before && |before| <= |was| + 1
    requires |was| < |before| ==> JustifiedInStream(d, before + pieces, |was|, chunks)
    requires forall j :: 0 <= j < |pieces| ==> ParsedIn(d, kept, pieces, j)
    requires input == Joined(chunks) && |Flatten(before)| <= |input| && input[|Flatten(before)|..] == kept
    ensures AllJustified(d, before + pieces, chunks)
  {
    var ledger := before + pieces;
    forall i | 0 <= i < |ledger| ensures JustifiedInStream(d, ledger, i, chunks) {
      if i < |was| {
        StillJustified(d, was, ledger, i, chunks);
      } else if i >= |before| {
        AddedPiece(d, before, input, kept, pieces, ledger, i, chunks);
      }
    }
  }

  lemma {:induction false} AddedPiece(
      d: Decoders, before: seq<Piece>, input: seq<Byte>, kept: seq<Byte>, pieces: seq<Piece>,
      ledger: seq<Piece>, i: nat, chunks: seq<seq<Byte>>)
    requires ledger == before + pieces && |before| <= i < |ledger| && ParsedIn(d, kept, pieces, i - |before|)
    requires input == Joined(chunks) && |Flatten(before)| <= |input| && input[|Flatten(before)|..] == kept
    ensures JustifiedInStream(d, ledger, i, chunks)
  {
    var j := i - |before|;
    OffsetInLedger(before, pieces, ledger, i);
    DropTwice(input, |Flatten(before)|, |Flatten(pieces[..j])|);
    NowJustified(d, ledger, i, |Flatten(before)| + |Flatten(pieces[..j])|, input, chunks);
  }

  lemma {:induction false} JoinedStep(front: seq<seq<Byte>>, data: seq<Byte>)
    ensures Joined(front + [data]) == Joined(front) + data
  {
    assert (front + [data])[..|front|] == front;
  }

  lemma {:induction false} NowJustified(
      d: Decoders, ledger: seq<Piece>, i: nat, from: nat, input: seq<Byte>, chunks: seq<seq<Byte>>)
    requires i < |ledger| && from == |Flatten(ledger[..i])| && input == Joined(chunks)
    requires if ledger[i].Overflow? then HasAt(input, from, ledger[i].lost) else ParsedAt(d, input, from, ledger[i])
    ensures JustifiedInStream(d, ledger, i, chunks)
  {
    assert chunks[..|chunks|] == chunks;
    assert JustifiedBy(d, ledger, i, chunks, |chunks|);
  }

  lemma {:induction false} StillJustified(
      d: Decoders, was: seq<Piece>, ledger: seq<Piece>, i: nat, chunks: seq<seq<Byte>>)
    requires chunks != [] && was <= ledger && i < |was|
    requires JustifiedInStream(d, was, i, chunks[..|chunks| - 1])
    ensures JustifiedInStream(d, ledger, i, chunks)
  {
    var front := chunks[..|chunks| - 1];
    var n :| 0 <= n <= |front| && JustifiedBy(d, was, i, front, n);
    assert ledger[..i] == was[..i] && chunks[..n] == front[..n];
    assert JustifiedBy(d, ledger, i, chunks, n);
  }

  lemma {:induction false} OverflowJustified(
      d: Decoders, was: seq<Piece>, buffer: seq<Byte>, lost: nat, data: seq<Byte>, pieces: seq<Piece>,
      chunks: seq<seq<Byte>>)
    requires 0 < lost <= |buffer| && Joined(chunks) == Flatten(was) + buffer + data
    ensures JustifiedInStream(d, was + Discard(buffer[..lost]) + pieces, |was|, chunks)
  {
    var ledger := was + Discard(buffer[..lost]) + pieces;
    assert ledger[..|was|] == was && ledger[|was|] == Overflow(buffer[..lost]);
    PartAt(Flatten(was), buffer, lost, data);
    NowJustified(d, ledger, |was|, |Flatten(was)|, Joined(chunks), chunks);
  }

  lemma {:induction false} PartAt(a: seq<Byte>, b: seq<Byte>, n: nat, c: seq<Byte>)
    requires n <= |b|
    ensures HasAt(a + b + c, |a|, b[..n])
  {
    assert (a + b + c)[|a|..|a| + n] == b[..n];
  }

  lemma {:induction false} KeptIsRest(was: seq<Piece>, buffer: seq<Byte>, lost: nat, data: seq<Byte>)
    requires lost <= |buffer|
    ensures Flatten(was + Discard(buffer[..lost])) + (buffer[lost..] + data) == Flatten(was) + buffer + data
  {
    FlattenConcat(was, Discard(buffer[..lost]));
    FlattenDiscard(buffer[..lost]);
    Regroup(Flatten(was), buffer, lost, data);
  }

  lemma {:induction false} OffsetInLedger(before: seq<Piece>, pieces: seq<Piece>, ledger: seq<Piece>, i: nat)
    requires ledger == before + pieces && |before| <= i <= |ledger|
    ensures |Flatten(ledger[..i])| == |Flatten(before)| + |Flatten(pieces[..i - |before|])|
  {
    assert ledger[..i] == before + pieces[..i - |before|];
    FlattenConcat(before, pieces[..i - |before|]);
  }

  lemma {:induction false} DropTwice(buf: seq<Byte>, m: nat, n: nat)
    requires m + n <= |buf|
    ensures buf[m..][n..] == buf[m + n..]
  {
  }

  lemma {:induction false} CutsSplit(d: Decoders, buf: seq<Byte>, pieces: seq<Piece>, rest: seq<Byte>, j: nat)
    returns (mid: seq<Byte>)
    requires Cuts(d, buf, pieces, rest) && j <= |pieces|
    ensures Cuts(d, buf, pieces[..j], mid) && Cuts(d, mid, pieces[j..], rest)
    decreases j
  {
    if j == 0 {
      assert pieces[0..] == pieces;
      mid := buf;
    } else {
      mid := CutsSplit(d, buf[|pieces[0].Bytes()|..], pieces[1..], rest, j - 1);
      assert pieces[..j] == [pieces[0]] + pieces[1..][..j - 1];
      assert pieces[1..][j - 1..] == pieces[j..];
    }
  }

  /** The j-th piece is right for what is left when those before it are cut off. */
  ghost predicate ParsedIn(d: Decoders, buf: seq<Byte>, pieces: seq<Piece>, j: nat)
    requires j < |pieces|
  {
    match pieces[j]
    case Overflow(_) => false
    case p => ParsedAt(d, buf, |Flatten(pieces[..j])|, p)
  }

  lemma {:induction false} CutJustified(d: Decoders, buf: seq<Byte>, pieces: seq<Piece>, rest: seq<Byte>, j: nat)
    requires Cuts(d, buf, pieces, rest) && j < |pieces|
    ensures ParsedIn(d, buf, pieces, j)
  {
    var mid := CutsSplit(d, buf, pieces, rest, j);
    CutsConserve(d, buf, pieces[..j], mid);
    assert mid == buf[|Flatten(pieces[..j])|..];
  }

  class StreamParser {
    const decoders: Decoders
    var buffer: seq<Byte>
    /** Everything ever pushed, and what became of all but the buffer. */
    ghost var input: seq<Byte>
    ghost var ledger: seq<Piece>

    ghost predicate Valid()
      reads this
    {
      decoders.WellBehaved() && AllSound(ledger) && input == Flatten(ledger) + buffer
    }

    constructor (decoders: Decoders)
      requires decoders.WellBehaved()
      ensures Valid() && this.decoders == decoders && buffer == [] && input == [] && ledger == []
    {
      this.decoders, buffer, input, ledger := decoders, [], [], [];
    }

    /** Oldest bytes give way to new ones; a chunk larger than the cap is kept whole. */
    method Push(data: seq<Byte>)
      requires Valid()
      modifies this
      ensures Valid() && input == old(input) + data
      ensures buffer == old(buffer)[Lost(|old(buffer)|, |data|)..] + data
      ensures ledger == old(ledger) + Discard(old(buffer)[..Lost(|old(buffer)|, |data|)])
      // Nothing is dropped while everything fits; otherwise only what does not.
      ensures |old(buffer)| + |data| <= 1_048_576 ==> buffer == old(buffer) + data && ledger == old(ledger)
      ensures |old(buffer)| + |data| > 1_048_576 ==>
        var all := old(buffer) + data;
        && buffer == all[|all| - Max(1_048_576, |data|)..]
        && ledger == old(ledger) + Discard(all[..|all| - Max(1_048_576, |data|)])
      ensures |buffer| <= Max(1_048_576, |data|)
    {
      OldestGiveWay(buffer, data);
      assert ledger + [] == ledger;
      MakeRoom(Minus(|buffer| + |data|, MAX_BUFFER_SIZE));
      Append(data);
    }

    method Append(data: seq<Byte>)
      requires Valid()
      modifies this`buffer, this`input
      ensures Valid() && input == old(input) + data && buffer == old(buffer) + data
    {
      Associative(Flatten(ledger), buffer, data);
      buffer := buffer + data;
      input := input + data;
    }

    method MakeRoom(overflow: nat)
      requires Valid()
      modifies this`buffer, this`ledger
      ensures Valid()
      ensures buffer == old(buffer)[Min(overflow, |old(buffer)|)..]
      ensures ledger == old(ledger) + Discard(old(buffer)[..Min(overflow, |old(buffer)|)])
    {
      if overflow == 0 || buffer == [] {
        assert ledger + [] == ledger;
      } else if overflow <= |buffer| {
        Consume(Overflow(buffer[..overflow]));
      } else {
        assert buffer[..|buffer|] == buffer;
        Consume(Overflow(buffer));
      }
    }

    /** Take a piece off the front of the buffer and enter it in the ledger. */
    method Consume(p: Piece)
      requires Valid() && Sound(p) && p.Bytes() <= buffer
      modifies this`buffer, this`ledger
      ensures Valid() && ledger == old(ledger) + [p] && buffer == old(buffer)[|p.Bytes()|..]
    {
      LedgerStep(ledger, p, buffer);
      buffer := buffer[|p.Bytes()|..];
      ledger := ledger + [p];
    }

    /** Advance to the first start byte; without one, drop everything. */
    method SkipNoise() returns (ghost noise: seq<Piece>)
      requires Valid()
      modifies this`buffer, this`ledger
      ensures Valid() && ledger == old(ledger) + noise
      ensures Cuts(decoders, old(buffer), noise, buffer)
      ensures |noise| <= 1 && LastFrame(noise) == None
      ensures buffer == [] || buffer[0] == 0xFD || buffer[0] == 0xFE
      ensures forall b :: b in Flatten(noise) ==> b != 0xFD && b != 0xFE
    {
      noise := [];
      var idx := FirstStx(buffer);
      if idx > 0 {
        noise := [Noise(buffer[..idx])];
        assert noise[1..] == [];
        Consume(Noise(buffer[..idx]));
      }
    }

    /** At a start byte: take a frame, wait for more bytes, or reject the start byte. */
    method Decode() returns (piece: Option<Piece>)
      requires Valid() && buffer != [] && IsStx(buffer[0])
      modifies this`buffer, this`ledger
      ensures Valid() && ledger == old(ledger) + Entry(piece)
      ensures Cuts(decoders, old(buffer), Entry(piece), buffer)
      ensures if piece.Some? then piece.value.Frame? || piece.value.Rejected? else Waiting(decoders, buffer)
    {
      var v2 := decoders.v2(buffer);
      if v2.Complete? {
        piece := Some(Frame(V2, buffer[..v2.len]));
      } else {
        var v1 := decoders.v1(buffer);
        if v1.Complete? {
          piece := Some(Frame(V1, buffer[..v1.len]));
        } else if v2.Truncated? || v1.Truncated? {
          return None;
        } else {
          piece := Some(Rejected(buffer[0]));
        }
      }
      Consume(piece.value);
    }

    /** The pieces of one parse explain the buffer it started from; only the last can be
        a frame, and it is the frame returned. */
    method ParseNext() returns (frame: Option<Piece>, ghost pieces: seq<Piece>)
      requires Valid()
      modifies this`buffer, this`ledger
      ensures Valid() && ledger == old(ledger) + pieces
      ensures Explains(decoders, old(buffer), pieces, buffer)
      ensures frame == LastFrame(pieces)
      ensures frame.Some? ==> |buffer| < |old(buffer)|
    {
      pieces := [];
      ghost var start := buffer;
      while true
        invariant Valid() && ledger == old(ledger) + pieces
        invariant Continues(decoders, start, pieces, buffer)
        decreases |buffer|
      {
        ghost var was := buffer;
        ghost var noise := SkipNoise();
        AfterPiece(decoders, start, pieces, was, noise, buffer);
        Associative(old(ledger), pieces, noise);
        pieces := pieces + noise;
        if buffer == [] {
          return None, pieces;
        }
        was := buffer;
        frame := Decode();
        AfterPiece(decoders, start, pieces, was, Entry(frame), buffer);
        Associative(old(ledger), pieces, Entry(frame));
        pieces := pieces + Entry(frame);
        if frame == None || frame.value.Frame? {
          return frame, pieces;
        }
      }
    }

    /** The reader: push each chunk, then parse until nothing more comes. Ledger and buffer
        are those of the stream, what is emitted is the frames it adds, in order, and the
        buffer stays within its cap when the chunks do. */
    method Read(chunks: seq<seq<Byte>>) returns (emitted: seq<Piece>)
      requires Valid()
      modifies this
      ensures Valid() && input == old(input) + Joined(chunks)
      ensures (ledger, buffer) == Stream(decoders, old(ledger), old(buffer), chunks)
      ensures Frames(ledger) == Frames(old(ledger)) + emitted
      ensures chunks != [] ==> Waiting(decoders, buffer)
      ensures |old(buffer)| <= 1_048_576 && (forall i :: 0 <= i < |chunks| ==> |chunks[i]| <= 1_048_576)
              ==> |buffer| <= 1_048_576
    {
      emitted := [];
      for i := 0 to |chunks|
        invariant Valid() && input == old(input) + Joined(chunks[..i])
        invariant (ledger, buffer) == Stream(decoders, old(ledger), old(buffer), chunks[..i])
        invariant Frames(ledger) == Frames(old(ledger)) + emitted
        invariant i > 0 ==> Waiting(decoders, buffer)
        invariant |old(buffer)| <= 1_048_576 && (forall j :: 0 <= j < i ==> |chunks[j]| <= 1_048_576)
                  ==> |buffer| <= 1_048_576
      {
        assert chunks[..i + 1][..i] == chunks[..i];
        Associative(old(input), Joined(chunks[..i]), chunks[i]);
        var more := ReadChunk(chunks[i]);
        Associative(Frames(old(ledger)), emitted, more);
        emitted := emitted + more;
      }
      assert chunks[..|chunks|] == chunks;
    }

    method ReadChunk(data: seq<Byte>) returns (emitted: seq<Piece>)
      requires Valid()
      modifies this
      ensures Valid() && input == old(input) + data
      ensures (ledger, buffer) == AfterChunk(decoders, old(ledger), old(buffer), data)
      ensures Frames(ledger) == Frames(old(ledger)) + emitted
      ensures Waiting(decoders, buffer) && |buffer| <= Max(1_048_576, |data|)
    {
      DiscardIsNoFrame(ledger, buffer[..Lost(|buffer|, |data|)]);
      Push(data);
      emitted := Drain();
    }

    static lemma {:induction false} DiscardIsNoFrame(ledger: seq<Piece>, lost: seq<Byte>)
      ensures Frames(ledger + Discard(lost)) == Frames(ledger)
    {
      FramesConcat(ledger, Discard(lost));
      if lost != [] {
        assert Discard(lost)[..0] == [];
        assert Frames(Discard(lost)) == [];
      }
    }

    /** Parse until the buffer has to wait: the one way to drain it. */
    method Drain() returns (emitted: seq<Piece>)
      requires Valid()
      modifies this`buffer, this`ledger
      ensures Valid()
      ensures (ledger, buffer) == var (pieces, rest) := Segment(decoders, old(buffer)); (old(ledger) + pieces, rest)
      ensures emitted == Frames(Segment(decoders, old(buffer)).0)
      ensures Frames(ledger) == Frames(old(ledger)) + emitted
      ensures Waiting(decoders, buffer) && |buffer| <= |old(buffer)|
    {
      emitted := [];
      ghost var start, done: seq<Piece> := buffer, [];
      while true
        invariant Valid() && ledger == old(ledger) + done
        invariant Cuts(decoders, start, done, buffer) && emitted == Frames(done)
        invariant |buffer| <= |start|
        decreases |buffer|
      {
        ghost var was := buffer;
        var frame, pieces := ParseNext();
        FramesOfParse(pieces);
        FramesConcat(done, pieces);
        CutsConcat(decoders, start, done, was, pieces, buffer);
        CutsShrink(decoders, was, pieces, buffer);
        Associative(old(ledger), done, pieces);
        done := done + pieces;
        emitted := emitted + Entry(frame);
        if frame == None {
          DrainUnique(decoders, start, done, buffer, Segment(decoders, start).0, Segment(decoders, start).1);
          FramesConcat(old(ledger), done);
          return;
        }
      }
    }
  }
}

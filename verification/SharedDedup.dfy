// Deduplication, sixteen wheels under separate locks. Each lock region is one step, so a
// run is an arbitrary interleaving of submissions with per-shard rotations.
module SharedDedup {
  import opened Basics
  import opened TimeWheel

  const NUM_SHARDS: nat := 16

  /** Masking the hash by NUM_SHARDS - 1 is taking it modulo 16. */
  function WheelOf(h: Hash): nat {
    h % NUM_SHARDS
  }

  datatype SharedOp = Submit(h: Hash) | RotateShard(shard: nat)

  function StepShared(wheels: seq<Wheel>, op: SharedOp): seq<Wheel> {
    match op
    case Submit(h) =>
      if WheelOf(h) < |wheels|
      then wheels[WheelOf(h) := Step(wheels[WheelOf(h)], CheckAndInsert(h))] else wheels
    case RotateShard(i) =>
      if i < |wheels| then wheels[i := Step(wheels[i], Rotate)] else wheels
  }

  function NewShared(n: nat): seq<Wheel> {
    seq(NUM_SHARDS, _ => NewWheel(n))
  }

  function RunShared(n: nat, ops: seq<SharedOp>): (wheels: seq<Wheel>)
    ensures |wheels| == NUM_SHARDS
  {
    if ops == [] then NewShared(n) else StepShared(RunShared(n, ops[..|ops| - 1]), ops[|ops| - 1])
  }

  /** The answer a submission of h would get now. */
  predicate Duplicate(wheels: seq<Wheel>, h: Hash) {
    WheelOf(h) < |wheels| && wheels[WheelOf(h)].Contains(h)
  }

  // ---- One hash sees one wheel ---------------------------------------------------------

  /** The steps of a run that concern hash h, as operations on a single wheel. */
  function Own(op: SharedOp, h: Hash): seq<Op> {
    match op
    case Submit(x) => if x == h then [CheckAndInsert(h)] else []
    case RotateShard(i) => if i == WheelOf(h) then [Rotate] else []
  }

  function Project(ops: seq<SharedOp>, h: Hash): seq<Op> {
    if ops == [] then [] else Project(ops[..|ops| - 1], h) + Own(ops[|ops| - 1], h)
  }

  /** The wheels agree about h, whatever other hashes they hold. */
  ghost predicate SameFor(a: Wheel, b: Wheel, h: Hash) {
    && |a.buckets| == |b.buckets|
    && a.current == b.current
    && (|a.buckets| > 0 ==> a.current < |a.buckets|)
    && forall i :: 0 <= i < |a.buckets| ==> (h in a.buckets[i] <==> h in b.buckets[i])
  }

  /** For every interleaving, the answers given to h are those of a single wheel run on
      h's own submissions and the rotations of h's own shard. */
  lemma {:induction false} OwnWheel(n: nat, ops: seq<SharedOp>, h: Hash)
    ensures Duplicate(RunShared(n, ops), h) <==> Run(n, Project(ops, h)).Contains(h)
  {
    WheelsAgree(n, ops, h);
    var shared, single := RunShared(n, ops)[WheelOf(h)], Run(n, Project(ops, h));
    assert shared.Contains(h) <==> single.Contains(h);
  }

  lemma {:induction false} WheelsAgree(n: nat, ops: seq<SharedOp>, h: Hash)
    ensures SameFor(RunShared(n, ops)[WheelOf(h)], Run(n, Project(ops, h)), h)
  {
    if ops != [] {
      var front, last := ops[..|ops| - 1], ops[|ops| - 1];
      WheelsAgree(n, front, h);
      ProjectStep(n, ops, h);
      OwnStep(RunShared(n, front), last, Run(n, Project(front, h)), h);
    }
  }

  /** One shared step keeps the agreement about h. */
  lemma {:induction false} OwnStep(wheels: seq<Wheel>, op: SharedOp, single: Wheel, h: Hash)
    requires |wheels| == NUM_SHARDS && SameFor(wheels[WheelOf(h)], single, h)
    ensures var single' := if Own(op, h) == [] then single else Step(single, Own(op, h)[0]);
      SameFor(StepShared(wheels, op)[WheelOf(h)], single', h)
  {
  }

  lemma {:induction false} ProjectStep(n: nat, ops: seq<SharedOp>, h: Hash)
    requires ops != []
    ensures var front, own := Project(ops[..|ops| - 1], h), Own(ops[|ops| - 1], h);
      && Project(ops, h) == front + own
      && Run(n, Project(ops, h)) == (if own == [] then Run(n, front) else Step(Run(n, front), own[0]))
  {
    var front, own := Project(ops[..|ops| - 1], h), Own(ops[|ops| - 1], h);
    if own == [] {
      assert front + own == front;
    } else {
      assert (front + own)[..|front + own| - 1] == front;
    }
  }

  // ---- Windows over interleavings ------------------------------------------------------

  function ShardRotations(ops: seq<SharedOp>, shard: nat): nat {
    if ops == [] then 0
    else ShardRotations(ops[..|ops| - 1], shard) + (if ops[|ops| - 1] == RotateShard(shard) then 1 else 0)
  }

  /** The i-th step submits h and is told it is new. */
  ghost predicate Accepts(n: nat, ops: seq<SharedOp>, i: nat, h: Hash) {
    i < |ops| && ops[i] == Submit(h) && !Duplicate(RunShared(n, ops[..i]), h)
  }

  lemma {:induction false} ProjectAppend(ops: seq<SharedOp>, op: SharedOp, h: Hash)
    ensures Project(ops + [op], h) == Project(ops, h) + Own(op, h)
  {
    assert (ops + [op])[..|ops|] == ops;
  }

  lemma {:induction false} ProjectSplit(ops: seq<SharedOp>, i: nat, h: Hash)
    requires i <= |ops|
    ensures Project(ops, h) == Project(ops[..i], h) + Project(ops[i..], h)
  {
    if i < |ops| {
      var front := ops[..|ops| - 1];
      ProjectSplit(front, i, h);
      assert front[..i] == ops[..i];
      assert ops[i..][..|ops[i..]| - 1] == front[i..];
      Associative(Project(ops[..i], h), Project(front[i..], h), Own(ops[|ops| - 1], h));
    } else {
      assert ops[..i] == ops;
    }
  }

  lemma {:induction false} ProjectRotations(ops: seq<SharedOp>, h: Hash)
    ensures Rotations(Project(ops, h)) == ShardRotations(ops, WheelOf(h))
  {
    if ops != [] {
      var front, own := Project(ops[..|ops| - 1], h), Own(ops[|ops| - 1], h);
      ProjectRotations(ops[..|ops| - 1], h);
      if own == [] {
        assert front + own == front;
      } else {
        assert (front + own)[..|front + own| - 1] == front;
      }
    }
  }

  /** A submission of h lands in h's own history, at the position its prefix fills. */
  lemma {:induction false} Landing(ops: seq<SharedOp>, i: nat, h: Hash)
    requires i < |ops| && ops[i] == Submit(h)
    ensures var p := |Project(ops[..i], h)|;
      && p < |Project(ops, h)| && Project(ops, h)[p] == CheckAndInsert(h)
      && Project(ops, h)[..p] == Project(ops[..i], h)
      && Rotations(Project(ops, h)[p..]) == ShardRotations(ops[i..], WheelOf(h))
  {
    var p := |Project(ops[..i], h)|;
    ProjectSplit(ops, i, h);
    ProjectSplit(ops[i..], 1, h);
    assert ops[i..][..1] == [Submit(h)];
    assert Project([Submit(h)], h) == [CheckAndInsert(h)] by {
      assert [Submit(h)][..0] == [];
    }
    assert Project(ops, h)[p..] == Project(ops[i..], h);
    ProjectRotations(ops[i..], h);
  }

  /** Conversely, every operation of h's own history other than a rotation is a submission. */
  lemma {:induction false} Origin(ops: seq<SharedOp>, p: nat, h: Hash) returns (i: nat)
    requires p < |Project(ops, h)| && Project(ops, h)[p] != Rotate
    ensures i < |ops| && ops[i] == Submit(h) && |Project(ops[..i], h)| == p
  {
    var front := ops[..|ops| - 1];
    if p < |Project(front, h)| {
      i := Origin(front, p, h);
      assert front[..i] == ops[..i];
    } else {
      i := |ops| - 1;
    }
  }

  /** Exactly one acceptance per window: in every interleaving a submission of h is
      rejected iff h was accepted fewer than `n` rotations of its shard ago. */
  lemma {:induction false} OneAcceptancePerWindow(n: nat, ops: seq<SharedOp>, h: Hash)
    ensures Duplicate(RunShared(n, ops), h) <==>
            exists i: nat :: Accepts(n, ops, i, h) && ShardRotations(ops[i..], WheelOf(h)) < n
  {
    OwnWheel(n, ops, h);
    SlidingWindow(n, Project(ops, h), h);
    forall i: nat | i < |ops| && ops[i] == Submit(h)
      ensures var p := |Project(ops[..i], h)|;
        && p < |Project(ops, h)|
        && (Accepts(n, ops, i, h) <==> Inserts(n, Project(ops, h), p, h))
        && Rotations(Project(ops, h)[p..]) == ShardRotations(ops[i..], WheelOf(h))
    {
      Landing(ops, i, h);
      OwnWheel(n, ops[..i], h);
    }
    if InWindow(n, Project(ops, h), h) {
      var p: nat :| Inserts(n, Project(ops, h), p, h) && Rotations(Project(ops, h)[p..]) < n;
      var i := Origin(ops, p, h);
      assert Accepts(n, ops, i, h);
    }
  }

  lemma {:induction false} RotationsSplit(ops: seq<SharedOp>, i: nat, shard: nat)
    requires i <= |ops|
    ensures ShardRotations(ops, shard) == ShardRotations(ops[..i], shard) + ShardRotations(ops[i..], shard)
  {
    if i < |ops| {
      var front := ops[..|ops| - 1];
      RotationsSplit(front, i, shard);
      assert front[..i] == ops[..i];
      assert ops[i..][..|ops[i..]| - 1] == front[i..];
    } else {
      assert ops[..i] == ops;
    }
  }

  /** Two acceptances of one hash are at least `n` rotations of its shard apart. */
  lemma {:induction false} AcceptancesApart(n: nat, ops: seq<SharedOp>, i: nat, j: nat, h: Hash)
    requires Accepts(n, ops, i, h) && Accepts(n, ops, j, h) && i < j
    ensures ShardRotations(ops[i..j], WheelOf(h)) >= n
  {
    OneAcceptancePerWindow(n, ops[..j], h);
    assert ops[..j][..i] == ops[..i];
    assert Accepts(n, ops[..j], i, h);
    assert ops[..j][i..] == ops[i..j];
  }

  // ---- Real time -----------------------------------------------------------------------

  /** Rotation number m (from 0) of the shard is due at first + 100m; it never runs early
      and at most `late` ms late. `times[i]` is when step i happens. */
  ghost predicate OnSchedule(ops: seq<SharedOp>, times: seq<Time>, shard: nat, first: Time, late: nat) {
    && |times| == |ops|
    && forall i :: 0 <= i < |ops| ==>
         first + BUCKET_MS * (ShardRotations(ops[..i], shard) - 1) <= times[i]
         <= first + BUCKET_MS * ShardRotations(ops[..i], shard) + late
  }

  /** With a period of P ms, copies are suppressed for 100(N-1) > P - 200 ms after an
      acceptance, and for 100 ms whatever the period; and any suppressed copy has an acceptance at most max(P, 200) ms before
      it; the timer's lateness is added to both bounds. */
  lemma {:induction false} RealTimeWindow(
      periodMs: nat, ops: seq<SharedOp>, times: seq<Time>, first: Time, late: nat, j: nat, h: Hash)
    requires periodMs > 0 && OnSchedule(ops, times, WheelOf(h), first, late)
    requires j < |ops| && ops[j] == Submit(h)
    ensures 100 * (NumBuckets(periodMs) - 1) > periodMs - 200
    ensures forall i: nat ::
      i < j && Accepts(NumBuckets(periodMs), ops, i, h) &&
      times[j] + late < times[i] + Max(100, 100 * (NumBuckets(periodMs) - 1)) ==>
        !Accepts(NumBuckets(periodMs), ops, j, h)
    ensures !Accepts(NumBuckets(periodMs), ops, j, h) ==>
      exists i: nat :: i < j && Accepts(NumBuckets(periodMs), ops, i, h) &&
        times[j] <= times[i] + Max(periodMs, 200) + late
  {
    var n, shard := NumBuckets(periodMs), WheelOf(h);
    forall i: nat | i < j
      ensures ShardRotations(ops[i..j], shard) == ShardRotations(ops[..j], shard) - ShardRotations(ops[..i], shard)
    {
      RotationsSplit(ops[..j], i, shard);
      assert ops[..j][..i] == ops[..i];
      assert ops[..j][i..] == ops[i..j];
    }
    forall i: nat | i < j && Accepts(n, ops, i, h) && Accepts(n, ops, j, h)
      ensures times[j] + late >= times[i] + BUCKET_MS * (n - 1)
    {
      AcceptancesApart(n, ops, i, j, h);
    }
    if !Accepts(n, ops, j, h) {
      OneAcceptancePerWindow(n, ops[..j], h);
      var i: nat :| Accepts(n, ops[..j], i, h) && ShardRotations(ops[..j][i..], shard) < n;
      assert ops[..j][..i] == ops[..i];
      assert ops[..j][i..] == ops[i..j];
      assert Accepts(n, ops, i, h);
    }
  }

  // ---- A pass of the rotator -----------------------------------------------------------

  /** One lock region per shard, in shard order. */
  function EachShard(n: nat): seq<SharedOp> {
    if n == 0 then [] else EachShard(n - 1) + [RotateShard(n - 1)]
  }

  lemma {:induction false} RotatesOne(ops: seq<SharedOp>, i: nat, h: Hash)
    ensures Project(ops + [RotateShard(i)], h) == if i == WheelOf(h) then Project(ops, h) + [Rotate] else Project(ops, h)
  {
    ProjectAppend(ops, RotateShard(i), h);
    assert Project(ops, h) + [] == Project(ops, h);
  }

  // ---- The object ----------------------------------------------------------------------

  class ConcurrentDedup {
    const periodMs: nat
    const shards: seq<Dedup>
    ghost var ops: seq<SharedOp>

    ghost predicate Valid()
      reads this, shards
    {
      && |shards| == NUM_SHARDS
      && (forall i, j :: 0 <= i < j < NUM_SHARDS ==> shards[i] != shards[j])
      && forall i :: 0 <= i < NUM_SHARDS ==>
           && shards[i].Valid() && shards[i].periodMs == periodMs
           && shards[i].View() == RunShared(NumBuckets(periodMs), ops)[i]
    }

    constructor (periodMs: nat)
      ensures Valid() && ops == [] && this.periodMs == periodMs && fresh(shards)
    {
      var built: seq<Dedup> := [];
      for i := 0 to NUM_SHARDS
        invariant |built| == i && fresh(built)
        invariant forall j, k :: 0 <= j < k < i ==> built[j] != built[k]
        invariant forall j :: 0 <= j < i ==>
          built[j].Valid() && built[j].ops == [] && built[j].periodMs == periodMs
      {
        var shard := new Dedup(periodMs);
        built := built + [shard];
      }
      this.periodMs := periodMs;
      shards := built;
      ops := [];
    }

    /** The answer is the one `OneAcceptancePerWindow` characterises. */
    method CheckAndInsert(h: Hash) returns (duplicate: bool)
      requires Valid()
      modifies this`ops, shards
      ensures Valid() && ops == old(ops) + [Submit(h)]
      ensures duplicate <==> Duplicate(RunShared(NumBuckets(periodMs), old(ops)), h)
    {
      ghost var i := WheelOf(h);
      duplicate := shards[WheelOf(h)].CheckAndInsertHash(h);
      ops := ops + [Submit(h)];
      assert ops[..|ops| - 1] == old(ops);
      StepsAgree(shards[i].numBuckets, old(shards[i].ops), TimeWheel.CheckAndInsert(h));
    }

    method RotateShard(i: nat)
      requires Valid() && i < NUM_SHARDS
      modifies this`ops, shards
      ensures Valid() && ops == old(ops) + [SharedOp.RotateShard(i)]
    {
      shards[i].RotateBucket();
      ops := ops + [SharedOp.RotateShard(i)];
      assert ops[..|ops| - 1] == old(ops);
      StepsAgree(shards[i].numBuckets, old(shards[i].ops), Rotate);
    }

    /** The rotator's pass: one lock region per shard, in shard order. */
    method RotateBuckets()
      requires Valid()
      modifies this`ops, shards
      ensures Valid()
      ensures ops == old(ops) + (if periodMs == 0 then [] else EachShard(NUM_SHARDS))
      // Every hash sees exactly one rotation.
      ensures periodMs > 0 ==> forall h :: Project(ops, h) == Project(old(ops), h) + [Rotate]
    {
      if periodMs == 0 {
        return;
      }
      for i := 0 to NUM_SHARDS
        invariant Valid() && ops == old(ops) + EachShard(i)
        invariant forall h ::
          Project(ops, h) == if WheelOf(h) < i then Project(old(ops), h) + [Rotate] else Project(old(ops), h)
      {
        forall h { RotatesOne(ops, i, h); }
        RotateShard(i);
      }
    }

    static lemma {:induction false} StepsAgree(n: nat, ops: seq<Op>, op: Op)
      ensures Run(n, ops + [op]) == Step(Run(n, ops), op)
    {
    }
  }
}

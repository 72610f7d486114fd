// Deduplication, one wheel: a ring of hash buckets that forgets by rotation.
module TimeWheel {
  import opened Basics

  /** A 64-bit payload hash. The hash function itself is not part of this model. */
  type Hash = h: int | 0 <= h < 0x1_0000_0000_0000_0000 witness 0

  const BUCKET_MS: nat := 100

  /** Zero buckets is the disabled wheel of a zero period. */
  function NumBuckets(periodMs: nat): nat {
    if periodMs == 0 then 0 else Max(periodMs / BUCKET_MS, 2)
  }

  datatype Wheel = Wheel(buckets: seq<set<Hash>>, current: nat)
  {
    predicate Contains(h: Hash) {
      exists b :: 0 <= b < |buckets| && h in buckets[b]
    }

    function Insert(h: Hash): Wheel {
      if current < |buckets| then Wheel(buckets[current := buckets[current] + {h}], current) else this
    }

    function Rotate(): Wheel {
      if |buckets| == 0 then this
      else
        var next := (current + 1) % |buckets|;
        Wheel(buckets[next := {}], next)
    }
  }

  function NewWheel(n: nat): Wheel {
    Wheel(seq(n, _ => {}), 0)
  }

  datatype Op = Insert(h: Hash) | Check(h: Hash) | CheckAndInsert(h: Hash) | Rotate

  function Step(w: Wheel, op: Op): Wheel {
    match op
    case Insert(h) => w.Insert(h)
    case Check(_) => w
    case CheckAndInsert(h) => if w.Contains(h) then w else w.Insert(h)
    case Rotate => w.Rotate()
  }

  function Run(n: nat, ops: seq<Op>): Wheel {
    if ops == [] then NewWheel(n) else Step(Run(n, ops[..|ops| - 1]), ops[|ops| - 1])
  }

  function Rotations(ops: seq<Op>): nat {
    if ops == [] then 0
    else Rotations(ops[..|ops| - 1]) + (if ops[|ops| - 1].Rotate? then 1 else 0)
  }

  /** The i-th operation put h into the wheel. */
  ghost predicate Inserts(n: nat, ops: seq<Op>, i: nat, h: Hash) {
    i < |ops| &&
    (ops[i] == Insert(h) || (ops[i] == CheckAndInsert(h) && !Run(n, ops[..i]).Contains(h)))
  }

  /** Some insertion of h happened fewer than `n` rotations ago. */
  ghost predicate InWindow(n: nat, ops: seq<Op>, h: Hash) {
    exists i: nat :: Inserts(n, ops, i, h) && Rotations(ops[i..]) < n
  }

  /** How many rotations ago bucket `b` was the current one. */
  function Age(w: Wheel, b: nat): int {
    if b <= w.current then w.current - b else w.current - b + |w.buckets|
  }

  lemma {:induction false} RunShape(n: nat, ops: seq<Op>)
    ensures |Run(n, ops).buckets| == n
    ensures if n == 0 then Run(n, ops) == NewWheel(0) else Run(n, ops).current < n
  {
    if ops != [] {
      RunShape(n, ops[..|ops| - 1]);
    }
  }

  lemma {:induction false} RotationsSuffix(ops: seq<Op>, i: nat)
    requires i < |ops|
    ensures Rotations(ops[i..]) ==
            Rotations(ops[..|ops| - 1][i..]) + (if ops[|ops| - 1].Rotate? then 1 else 0)
  {
    assert ops[i..][..|ops[i..]| - 1] == ops[..|ops| - 1][i..];
  }

  /** Some insertion of h happened exactly `age` rotations ago. */
  ghost predicate InsertedAgo(n: nat, ops: seq<Op>, h: Hash, age: int) {
    exists i: nat :: Inserts(n, ops, i, h) && Rotations(ops[i..]) == age
  }

  lemma {:induction false} InsertedAgoStep(n: nat, ops: seq<Op>, h: Hash, age: int)
    requires ops != []
    ensures var front, last := ops[..|ops| - 1], ops[|ops| - 1];
      InsertedAgo(n, ops, h, age) <==>
        if last.Rotate? then InsertedAgo(n, front, h, age - 1)
        else InsertedAgo(n, front, h, age) || (age == 0 && Inserts(n, ops, |front|, h))
  {
    var front, last := ops[..|ops| - 1], ops[|ops| - 1];
    var turn := if last.Rotate? then 1 else 0;
    forall i: nat | i < |front|
      ensures Inserts(n, ops, i, h) <==> Inserts(n, front, i, h)
      ensures Rotations(ops[i..]) == Rotations(front[i..]) + turn
    {
      assert ops[..i] == front[..i];
      RotationsSuffix(ops, i);
    }
    assert ops[|front|..] == [last];
    assert Rotations([last]) == turn;
    if InsertedAgo(n, ops, h, age) {
      var i: nat :| Inserts(n, ops, i, h) && Rotations(ops[i..]) == age;
      if i < |front| {
        assert InsertedAgo(n, front, h, age - turn);
      }
    }
    if InsertedAgo(n, front, h, age - turn) {
      var i: nat :| Inserts(n, front, i, h) && Rotations(front[i..]) == age - turn;
      assert Inserts(n, ops, i, h) && Rotations(ops[i..]) == age;
    }
  }

  /** Each bucket holds exactly the hashes inserted when it was current. */
  lemma {:induction false} BucketIsItsAge(n: nat, ops: seq<Op>, b: nat, h: Hash)
    requires b < n
    ensures |Run(n, ops).buckets| == n
    ensures h in Run(n, ops).buckets[b] <==> InsertedAgo(n, ops, h, Age(Run(n, ops), b))
  {
    RunShape(n, ops);
    if ops != [] {
      var front, last := ops[..|ops| - 1], ops[|ops| - 1];
      RunShape(n, front);
      BucketIsItsAge(n, front, b, h);
      StepBucket(Run(n, front), last, b, h);
      InsertedAgoStep(n, ops, h, Age(Run(n, ops), b));
      assert ops[..|front|] == front;
      assert !InsertedAgo(n, front, h, -1);
    }
  }

  /** One operation, seen from one bucket. */
  lemma {:induction false} StepBucket(w: Wheel, op: Op, b: nat, h: Hash)
    requires b < |w.buckets| && w.current < |w.buckets|
    ensures var w' := Step(w, op);
      && |w'.buckets| == |w.buckets|
      && if op.Rotate? then
           (if b == w'.current then h !in w'.buckets[b] && Age(w', b) == 0
            else Age(w', b) == Age(w, b) + 1 && (h in w'.buckets[b] <==> h in w.buckets[b]))
         else
           var inserts := op == Insert(h) || (op == CheckAndInsert(h) && !w.Contains(h));
           Age(w', b) == Age(w, b) &&
           (h in w'.buckets[b] <==> h in w.buckets[b] || (inserts && Age(w, b) == 0))
  {
    NextBucket(w.current, |w.buckets|);
    match op
    case Insert(_) =>
    case Check(_) =>
    case CheckAndInsert(_) =>
    case Rotate =>
      var next := if w.current + 1 == |w.buckets| then 0 else w.current + 1;
      assert Step(w, op) == Wheel(w.buckets[next := {}], next);
  }

  lemma {:induction false} NextBucket(current: nat, n: nat)
    requires current < n
    ensures (current + 1) % n == if current + 1 == n then 0 else current + 1
  {
  }

  /** The wheel is a sliding window: after any operations whatever, a hash is reported
      as a duplicate iff it was inserted fewer than `n` rotations ago. */
  lemma {:induction false} SlidingWindow(n: nat, ops: seq<Op>, h: Hash)
    ensures Run(n, ops).Contains(h) <==> InWindow(n, ops, h)
  {
    RunShape(n, ops);
    var w := Run(n, ops);
    if w.Contains(h) {
      var b: nat :| b < n && h in w.buckets[b];
      BucketIsItsAge(n, ops, b, h);
    }
    if InWindow(n, ops, h) {
      var i: nat :| Inserts(n, ops, i, h) && Rotations(ops[i..]) < n;
      var age := Rotations(ops[i..]);
      var b := if age <= w.current then w.current - age else w.current - age + n;
      BucketIsItsAge(n, ops, b, h);
    }
  }

  /** The wheel object. `ops` is the ghost history that its answers are stated over. */
  class Dedup {
    const periodMs: nat
    const numBuckets: nat
    var buckets: seq<set<Hash>>
    var currentBucket: nat
    ghost var ops: seq<Op>

    ghost function View(): Wheel
      reads this
    {
      Wheel(buckets, currentBucket)
    }

    ghost predicate Valid()
      reads this
    {
      numBuckets == NumBuckets(periodMs) && View() == Run(numBuckets, ops)
    }

    constructor (periodMs: nat)
      ensures Valid() && ops == [] && this.periodMs == periodMs
    {
      this.periodMs := periodMs;
      currentBucket := 0;
      ops := [];
      numBuckets := NumBuckets(periodMs);
      buckets := seq(NumBuckets(periodMs), _ => {});
    }

    method Scan(h: Hash) returns (found: bool)
      ensures found <==> View().Contains(h)
    {
      for b := 0 to |buckets|
        invariant forall a :: 0 <= a < b ==> h !in buckets[a]
      {
        if h in buckets[b] {
          return true;
        }
      }
      return false;
    }

    method IsDuplicate(h: Hash) returns (duplicate: bool)
      requires Valid()
      ensures duplicate <==> InWindow(numBuckets, ops, h)
    {
      SlidingWindow(numBuckets, ops, h);
      if periodMs == 0 {
        return false;
      }
      duplicate := Scan(h);
    }

    method InsertHash(h: Hash)
      requires Valid()
      modifies this
      ensures Valid() && ops == old(ops) + [Insert(h)]
    {
      RunShape(numBuckets, ops);
      if periodMs != 0 && currentBucket < |buckets| {
        buckets := buckets[currentBucket := buckets[currentBucket] + {h}];
      }
      ops := ops + [Insert(h)];
      assert ops[..|ops| - 1] == old(ops);
    }

    method CheckAndInsertHash(h: Hash) returns (duplicate: bool)
      requires Valid()
      modifies this
      ensures Valid() && ops == old(ops) + [CheckAndInsert(h)]
      ensures duplicate <==> old(View().Contains(h))
      ensures duplicate <==> InWindow(numBuckets, old(ops), h)
    {
      RunShape(numBuckets, ops);
      SlidingWindow(numBuckets, ops, h);
      duplicate := false;
      if periodMs != 0 {
        duplicate := Scan(h);
        if !duplicate && currentBucket < |buckets| {
          buckets := buckets[currentBucket := buckets[currentBucket] + {h}];
        }
      }
      ops := ops + [CheckAndInsert(h)];
      assert ops[..|ops| - 1] == old(ops);
    }

    method RotateBucket()
      requires Valid()
      modifies this
      ensures Valid() && ops == old(ops) + [Rotate]
      ensures periodMs > 0 ==> currentBucket < numBuckets
    {
      RunShape(numBuckets, ops);
      if periodMs != 0 {
        currentBucket := (currentBucket + 1) % numBuckets;
        buckets := buckets[currentBucket := {}];
      }
      ops := ops + [Rotate];
      assert ops[..|ops| - 1] == old(ops);
    }
  }
}

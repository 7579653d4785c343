/**
 Brick layout of a volume request: how many subvolumes, and how big the bricks of each. Sizes are
 natural numbers. The three floating point factors are parameters (`Floats`).
 */
module BrickLayout {
  import opened Wrappers
  import opened Disperse

  const MIB := 1024 * 1024
  const GIB := 1024 * MIB
  const MIN_BRICK_SIZE := 20 * MIB
  const MAX_LOOP_BRICK_SIZE := 100 * GIB
  const LEAST_ARBITER_SIZE := 100 * MIB
  const MAX_METADATA_SIZE := 17179869184
  const DEFAULT_FILE_SIZE := 64 * 1024

  datatype SubvolType = Distribute | Replicate | Dispersed

  datatype BrickType = Data | Arbiter

  datatype Brick = Brick(kind: BrickType, subvol: nat, index: nat,
                         size: nat, tpSize: nat, metadataSize: nat, totalSize: nat)

  datatype Subvol = Subvol(kind: SubvolType, bricks: seq<Brick>)

  /** Pool size from brick size, metadata size from pool size, arbiter size from subvolume size and
      average file size: the places where the program computes in floating point. */
  datatype Floats = Floats(pool: nat -> nat, metadata: nat -> nat, arbiter: (nat, nat) -> nat)

  /** Round down to a multiple of 512. */
  function NormalizeSize(size: nat): (r: nat)
    ensures r <= size < r + 512 && r % 512 == 0
  {
    var rem := size % 512;
    if rem > 0 then size - rem else size
  }

  function PoolMetadataSize(f: Floats, pool: nat): (r: nat)
    ensures r <= MAX_METADATA_SIZE && r % 512 == 0
  {
    NormalizeSize(if f.metadata(pool) > MAX_METADATA_SIZE then MAX_METADATA_SIZE else f.metadata(pool))
  }

  // ---------------------------------------------------------------- sizes

  lemma DivMod(s: nat, n: nat)
    requires n > 0
    ensures s / n * n <= s < (s / n + 1) * n
  {
  }

  /** Dividing by n and then by d is dividing by n*d. */
  lemma DivDiv(s: nat, n: nat, d: nat)
    requires n > 0 && d > 0
    ensures s / n / d * (n * d) <= s < (s / n / d + 1) * (n * d)
  {
    var q := s / n;
    var b := q / d;
    DivMod(s, n);
    DivMod(q, d);
    MulLe(b * d, q, n);
    MulLe(q + 1, (b + 1) * d, n);
    assert b * (n * d) == b * d * n && (b + 1) * (n * d) == (b + 1) * d * n;
  }

  /** The least number of parts of at most m that hold s. */
  function CeilDiv(s: nat, m: nat): nat
    requires m > 0
  {
    if s % m > 0 then s / m + 1 else s / m
  }

  /** k subvolumes of d data bricks of at most m each hold s. */
  predicate Enough(k: nat, m: nat, d: nat, s: nat) {
    k * (m * d) >= s
  }

  ghost predicate IsLeast(n: nat, m: nat, d: nat, s: nat) {
    Enough(n, m, d, s) && forall k: nat :: Enough(k, m, d, s) ==> k >= n
  }

  /** n subvolumes of d bricks of size b use s up to less than 512 bytes a brick. */
  predicate LosesLittle(b: nat, n: nat, d: nat, s: nat) {
    b * (n * d) <= s < (b + 512) * (n * d)
  }

  lemma CeilDivIsLeast(s: nat, m: nat, d: nat)
    requires m > 0 && d > 0
    ensures m * d > 0 && IsLeast(CeilDiv(s, m * d), m, d, s)
    ensures s > 0 ==> CeilDiv(s, m * d) > 0
  {
    assert m * d > 0 by { MulLe(1, m, d); }
    var p := m * d;
    DivMod(s, p);
    assert s == s / p * p + s % p;
    var c := CeilDiv(s, p);
    assert (c - 1) * p < s || c == 0 by {
      assert (s / p - 1) * p == s / p * p - p;
    }
    forall k: nat | Enough(k, m, d, s)
      ensures k >= c
    {
      if k < c {
        MulLe(k, c - 1, p);
      }
    }
  }

  /** The share of one brick: the size divided among n subvolumes and then among d bricks. */
  function Share(s: nat, n: nat, d: nat): nat
    requires n > 0 && d > 0
  {
    (if n > 1 then s / n else s) / d
  }

  lemma ShareIsDiv(s: nat, n: nat, d: nat)
    requires n > 0 && d > 0
    ensures Share(s, n, d) == s / n / d
  {
  }

  /** Rounding a share down to whole blocks loses less than 512 bytes a brick. */
  lemma LossBound(s: nat, n: nat, d: nat)
    requires n > 0 && d > 0
    ensures LosesLittle(NormalizeSize(Share(s, n, d)), n, d, s)
  {
    ShareIsDiv(s, n, d);
    DivDiv(s, n, d);
    var q := s / n / d;
    MulLe(NormalizeSize(q), q, n * d);
    MulLe(q + 1, NormalizeSize(q) + 512, n * d);
  }

  /** With enough subvolumes no share exceeds the limit. */
  lemma ShareFits(s: nat, n: nat, d: nat, max: nat)
    requires n > 0 && d > 0 && (Enough(n, max, d, s) || s <= max)
    ensures Share(s, n, d) <= max
  {
    ShareIsDiv(s, n, d);
    DivDiv(s, n, d);
    var b := s / n / d;
    if Enough(n, max, d, s) {
      assert n * d > 0 by { MulLe(1, n, d); }
      assert (max + 1) * (n * d) == n * (max * d) + n * d;
      if b > max {
        MulLe(max + 1, b, n * d);
      }
    } else {
      DivLe(s, n);
      DivLe(s / n, d);
    }
  }

  lemma FactorLe(q: int, n: nat, s: nat)
    requires n > 0 && q * n <= s
    ensures q <= s
  {
  }

  lemma DivLe(s: nat, n: nat)
    requires n > 0
    ensures s / n <= s
  {
    DivMod(s, n);
    FactorLe(s / n, n, s);
  }

  // ---------------------------------------------------------------- the layout

  /** The volume request. `floats` and the size are what the caller gave; the rest the planner may
      rewrite. */
  class VolCreateReq {
    const size: nat
    const floats: Floats
    const averageFileSize: nat
    const isLoop: bool
    const replicaCount: int
    const arbiterCount: int
    const disperse: DisperseReq
    var maxBrickSize: nat
    var distributeCount: int
    var subvolType: SubvolType

    constructor (size: nat, floats: Floats, averageFileSize: nat, isLoop: bool, replicaCount: int,
                 arbiterCount: int, disperse: DisperseReq, maxBrickSize: nat, distributeCount: int)
      ensures this.size == size && this.floats == floats && this.isLoop == isLoop
      ensures this.replicaCount == replicaCount && this.arbiterCount == arbiterCount
      ensures this.disperse == disperse && this.maxBrickSize == maxBrickSize
      ensures this.distributeCount == distributeCount && this.averageFileSize == averageFileSize
    {
      this.size, this.floats, this.averageFileSize, this.isLoop := size, floats, averageFileSize, isLoop;
      this.replicaCount, this.arbiterCount, this.disperse := replicaCount, arbiterCount, disperse;
      this.maxBrickSize, this.distributeCount, this.subvolType := maxBrickSize, distributeCount, Distribute;
    }

    /** Data bricks that share a subvolume. */
    function DataBricks(): int
      reads this, disperse
    {
      if subvolType.Dispersed? then disperse.data else 1
    }

    method HandleReplica() returns (ok: bool)
      modifies this`subvolType
      ensures ok <==> replicaCount < 2 || (replicaCount <= 3 && arbiterCount <= 1)
      ensures ok && replicaCount >= 2 ==> subvolType == Replicate
      ensures replicaCount < 2 ==> subvolType == old(subvolType)
    {
      if replicaCount < 2 {
        return true;
      }
      if replicaCount > 3 {
        return false;
      }
      subvolType := Replicate;
      return arbiterCount <= 1;
    }

    /** The brick size limit that applies. */
    function LimitAfter(max: nat): nat {
      if isLoop && max == 0 then MAX_LOOP_BRICK_SIZE else max
    }

    /** The number of subvolumes: the least that respects the brick size limit when one volume of that
        size would not, and otherwise what the request asks for. */
    function Number(distribute: int): (n: nat)
      requires DataBricks() > 0
      reads this, disperse
      ensures n >= 1
      ensures 0 < maxBrickSize < size ==> IsLeast(n, maxBrickSize, DataBricks(), size)
      ensures !(0 < maxBrickSize < size) && distribute > 0 ==> n == distribute
      ensures !(0 < maxBrickSize < size) && distribute <= 0 ==> n == 1
    {
      if 0 < maxBrickSize < size then
        CeilDivIsLeast(size, maxBrickSize, DataBricks());
        CeilDiv(size, maxBrickSize * DataBricks())
      else if distribute > 0 then distribute else 1
    }

    /** Settle the brick size limit and the number of subvolumes. */
    method Distribution() returns (r: Result<nat>)
      requires subvolType.Dispersed? ==> disperse.data > 0
      requires !subvolType.Dispersed? ==> disperse.data == 0
      modifies this`maxBrickSize, this`distributeCount
      ensures r.Ok? <==> LimitOk(old(maxBrickSize))
      ensures r.Ok? ==> maxBrickSize == LimitAfter(old(maxBrickSize)) && r.value == Number(old(distributeCount))
      ensures r.Ok? && 0 < maxBrickSize < size ==> Enough(r.value, maxBrickSize, DataBricks(), size)
      ensures r.Ok? && isLoop ==> 0 < maxBrickSize <= MAX_LOOP_BRICK_SIZE
      ensures r.Ok? && (!isLoop || old(maxBrickSize) > 0) ==> maxBrickSize == old(maxBrickSize)
    {
      if maxBrickSize > 0 && maxBrickSize < MIN_BRICK_SIZE {
        return Err("max-brick-size is too small");
      }
      if isLoop {
        if maxBrickSize > MAX_LOOP_BRICK_SIZE {
          return Err("max-brick-size is too big for loop back bricks");
        }
        if maxBrickSize == 0 {
          maxBrickSize := MAX_LOOP_BRICK_SIZE;
        }
      }
      if maxBrickSize > 0 && size > maxBrickSize {
        var maxSubvolSize := maxBrickSize;
        if disperse.data > 0 {
          maxSubvolSize := maxBrickSize * disperse.data;
        }
        assert maxSubvolSize == maxBrickSize * DataBricks();
        CeilDivIsLeast(size, maxBrickSize, DataBricks());
        assert CeilDiv(size, maxSubvolSize) == Number(0);
        distributeCount := size / maxSubvolSize;
        if size % maxSubvolSize > 0 {
          distributeCount := distributeCount + 1;
        }
      }
      var numSubvols := 1;
      if distributeCount > 0 {
        numSubvols := distributeCount;
      }
      r := Ok(numSubvols);
    }

    function BricksCount(): int
      reads this, disperse
    {
      match subvolType
      case Distribute => 1
      case Replicate => replicaCount + arbiterCount
      case Dispersed => disperse.count
    }

    function KindOf(j: nat): BrickType
      reads this
    {
      if subvolType.Replicate? && j == replicaCount && arbiterCount > 0 then Arbiter else Data
    }

    function ArbiterSize(subvolSize: nat): nat {
      var s := floats.arbiter(subvolSize, if averageFileSize != 0 then averageFileSize else DEFAULT_FILE_SIZE);
      if s >= LEAST_ARBITER_SIZE then s
      else if LEAST_ARBITER_SIZE > subvolSize then subvolSize else LEAST_ARBITER_SIZE
    }

    function BrickSize(subvolSize: nat, j: nat): nat
      requires subvolType.Dispersed? ==> disperse.data > 0
      reads this, disperse
    {
      if KindOf(j).Arbiter? then ArbiterSize(subvolSize)
      else if subvolType.Dispersed? then subvolSize / disperse.data else subvolSize
    }

    /** Brick j of subvolume i, from the unrounded size. */
    function MakeBrick(i: nat, j: nat, raw: nat): Brick
      reads this
    {
      var pool := floats.pool(raw);
      var tp, meta := NormalizeSize(pool), PoolMetadataSize(floats, pool);
      Brick(KindOf(j), i, j, NormalizeSize(raw), tp, meta, tp + meta)
    }

    /** Its size, the pool for it and the metadata of the pool, at most 16 GiB, are each rounded down to
        whole blocks, and it needs the pool and the metadata. */
    lemma BrickSpace(i: nat, j: nat, raw: nat)
      ensures var b, meta := MakeBrick(i, j, raw), floats.metadata(floats.pool(raw));
              && b.size % 512 == b.tpSize % 512 == b.metadataSize % 512 == 0
              && b.size <= raw < b.size + 512 && b.tpSize <= floats.pool(raw) < b.tpSize + 512
              && b.metadataSize <= (if meta > MAX_METADATA_SIZE then MAX_METADATA_SIZE else meta) < b.metadataSize + 512
              && b.totalSize == b.tpSize + b.metadataSize
    {
    }

    ghost predicate TooSmall(subvolSize: nat)
      requires subvolType.Dispersed? ==> disperse.data > 0
      reads this, disperse
    {
      exists j: nat :: j < BricksCount() && BrickSize(subvolSize, j) < MIN_BRICK_SIZE
    }

    /** The bricks of one subvolume. */
    method SubvolBricks(i: nat, subvolSize: nat) returns (r: Result<seq<Brick>>)
      requires subvolType.Dispersed? ==> disperse.data > 0
      ensures r.Ok? ==>
                && Shaped(r.value) && |r.value| == (if BricksCount() > 0 then BricksCount() else 0)
                && forall j :: 0 <= j < |r.value| ==>
                     r.value[j] == MakeBrick(i, j, BrickSize(subvolSize, j)) && BrickSize(subvolSize, j) >= MIN_BRICK_SIZE
      ensures r.Err? <==> TooSmall(subvolSize)
    {
      var bricks: seq<Brick> := [];
      var j := 0;
      while j < BricksCount()
        invariant 0 <= j && (j <= BricksCount() || j == 0) && |bricks| == j
        invariant forall k :: 0 <= k < j ==>
          bricks[k] == MakeBrick(i, k, BrickSize(subvolSize, k)) && BrickSize(subvolSize, k) >= MIN_BRICK_SIZE
      {
        var raw := BrickSize(subvolSize, j);
        if raw < MIN_BRICK_SIZE {
          return Err("brick size is too small");
        }
        bricks := bricks + [MakeBrick(i, j, raw)];
        j := j + 1;
      }
      r := Ok(bricks);
    }

    /** What a subvolume consists of: one data brick, or the replicas and then the arbiter, or the bricks of
        a disperse set. */
    ghost predicate Shaped(bricks: seq<Brick>)
      reads this, disperse
    {
      && (subvolType.Distribute? ==> |bricks| == 1 && bricks[0].kind.Data?)
      && (subvolType.Replicate? && arbiterCount <= 1 ==>
            && |bricks| == (if replicaCount + arbiterCount > 0 then replicaCount + arbiterCount else 0)
            && forall j :: 0 <= j < |bricks| ==> (bricks[j].kind.Data? <==> j < replicaCount))
      && (subvolType.Dispersed? ==>
            && |bricks| == (if disperse.count > 0 then disperse.count else 0)
            && forall j :: 0 <= j < |bricks| ==> bricks[j].kind.Data?)
    }

    /** A layout of n subvolumes whose data bricks together lose less than 512 bytes each of the
        requested size, and respect the brick size limit. */
    ghost predicate GoodLayout(subvols: seq<Subvol>)
      reads this, disperse
    {
      var n, d := |subvols|, DataBricks();
      && n >= 1 && d >= 1
      && (exists b: nat ::
            && LosesLittle(b, n, d, size)
            && (maxBrickSize > 0 ==> b <= maxBrickSize)
            && forall i, j :: 0 <= i < n && 0 <= j < |subvols[i].bricks| && subvols[i].bricks[j].kind.Data? ==>
                 subvols[i].bricks[j].size == b)
    }

    /** Data bricks all need the same space z, every brick's space is its pool and the pool's metadata
        in whole blocks, and an arbiter can only stand right after the replicas. */
    ghost predicate Proportioned(subvols: seq<Subvol>, z: nat)
      reads this
    {
      forall i, j :: 0 <= i < |subvols| && 0 <= j < |subvols[i].bricks| ==>
        var b := subvols[i].bricks[j];
        && b.totalSize == b.tpSize + b.metadataSize && b.tpSize % 512 == 0
        && b.metadataSize % 512 == 0 && b.metadataSize <= MAX_METADATA_SIZE
        && (b.kind.Data? ==> b.totalSize == z)
        && (b.kind.Arbiter? <==> subvolType.Replicate? && arbiterCount > 0 && j == replicaCount)
    }

    /** Bricks at the same place of different subvolumes need the same space. */
    ghost predicate Uniform(subvols: seq<Subvol>) {
      forall i, j :: 0 <= i < |subvols| && 0 <= j < |subvols[i].bricks| ==>
        |subvols[0].bricks| == |subvols[i].bricks| && subvols[i].bricks[j] == subvols[0].bricks[j].(subvol := i)
    }

    /** The replica, arbiter and disperse counts make sense. */
    predicate CountsOk(c: Counts) {
      && (replicaCount < 2 || (replicaCount <= 3 && arbiterCount <= 1))
      && (IsDisperse(c) ==> Acceptable(c))
    }

    predicate LimitOk(max: nat) {
      (max == 0 || max >= MIN_BRICK_SIZE) && (isLoop ==> max <= MAX_LOOP_BRICK_SIZE)
    }

    /** The subvolume type a request asks for; disperse counts go before replicas. */
    function TypeFor(c: Counts): SubvolType {
      if IsDisperse(c) then Dispersed else if replicaCount >= 2 then Replicate else Distribute
    }

    function CountsAfter(c: Counts): Counts {
      if IsDisperse(c) then Filled(c) else c
    }

    /** The data bricks of n subvolumes are big enough, or there are no bricks. */
    ghost predicate BigEnough(n: nat)
      requires n >= 1 && DataBricks() > 0
      reads this, disperse
    {
      Share(size, n, DataBricks()) >= MIN_BRICK_SIZE || (subvolType.Replicate? && replicaCount + arbiterCount <= 0)
    }

    /** An arbiter has 100 MiB or what a replica has, whichever is less, and more only for its file
        count. */
    lemma ArbiterBounds(subvolSize: nat)
      ensures var s, least := ArbiterSize(subvolSize), if subvolSize < LEAST_ARBITER_SIZE then subvolSize else LEAST_ARBITER_SIZE;
              && s >= least
              && (s > least ==> s == floats.arbiter(subvolSize, if averageFileSize == 0 then DEFAULT_FILE_SIZE else averageFileSize))
              && (floats.arbiter(subvolSize, if averageFileSize == 0 then DEFAULT_FILE_SIZE else averageFileSize)
                    >= LEAST_ARBITER_SIZE ==>
                    s == floats.arbiter(subvolSize, if averageFileSize == 0 then DEFAULT_FILE_SIZE else averageFileSize))
    {
    }

    /** So an arbiter is never the brick that is too small. */
    lemma TooSmallExactly(n: nat, subvolSize: nat)
      requires n >= 1 && DataBricks() > 0 && subvolSize == Share(size, n, 1)
      requires (subvolType.Replicate? ==> replicaCount >= 2) && (subvolType.Dispersed? ==> disperse.count > 0)
      ensures TooSmall(subvolSize) <==> !BigEnough(n)
    {
      ArbiterBounds(subvolSize);
      if !BigEnough(n) {
        assert 0 < BricksCount() && BrickSize(subvolSize, 0) < MIN_BRICK_SIZE;
      }
    }

    /** Decide the subvolume type from the replica and disperse counts. */
    method ResolveType() returns (ok: bool)
      requires Small(disperse.Value()) && !disperse.isDisperse
      modifies this`subvolType, disperse
      ensures ok <==> CountsOk(old(disperse.Value()))
      ensures ok ==> subvolType == TypeFor(old(disperse.Value())) && disperse.Value() == CountsAfter(old(disperse.Value()))
      ensures ok ==> if subvolType.Dispersed? then Complete(disperse.Value()) else disperse.data == 0
    {
      subvolType := Distribute;
      var rok := HandleReplica();
      if !rok {
        return false;
      }
      if IsDisperse(disperse.Value()) {
        AcceptedExactly(disperse.Value());
      }
      var dok := disperse.Handle();
      if !dok {
        return false;
      }
      if disperse.isDisperse {
        subvolType := Dispersed;
      }
      return true;
    }

    method Layout() returns (r: Result<seq<Subvol>>)
      requires Small(disperse.Value()) && !disperse.isDisperse
      modifies this, disperse
      ensures r.Ok? ==> CountsOk(old(disperse.Value())) && LimitOk(old(maxBrickSize))
      ensures CountsOk(old(disperse.Value())) && LimitOk(old(maxBrickSize)) ==>
                && subvolType == TypeFor(old(disperse.Value())) && disperse.Value() == CountsAfter(old(disperse.Value()))
                && maxBrickSize == LimitAfter(old(maxBrickSize)) && DataBricks() > 0
                && (r.Ok? <==> BigEnough(Number(old(distributeCount))))
                && (r.Ok? ==> |r.value| == Number(old(distributeCount)))
      ensures r.Ok? ==>
                && GoodLayout(r.value) && Uniform(r.value) && Proportioned(r.value, DataNeed(|r.value|))
                && (forall i :: 0 <= i < |r.value| ==> Shaped(r.value[i].bricks))
                && (subvolType.Dispersed? ==>
                      forall i :: 0 <= i < |r.value| ==> |r.value[i].bricks| == disperse.data + disperse.redundancy)
                && forall i :: 0 <= i < |r.value| ==> Made(r.value[i], i, Share(size, |r.value|, 1))
    {
      hide Filled, Acceptable, IsDisperse, CeilDiv, Made, Proportioned, Uniform, GoodLayout, MakeBrick, BrickSize, NormalizeSize;
      hide BigEnough, BricksCount, TooSmall, LimitAfter, LimitOk, IsLeast, Enough;
      var ok := ResolveType();
      if !ok {
        return Err("invalid replica, arbiter or disperse count");
      }
      var count := Distribution();
      if count.Err? {
        return Err(count.reason);
      }
      var numSubvols := count.value;
      var subvolSize := size;
      if numSubvols > 1 {
        subvolSize := subvolSize / numSubvols;
      }
      assert Share(size, numSubvols, 1) == subvolSize;
      hide Share, DataSize, Shaped;
      TooSmallExactly(numSubvols, subvolSize);
      r := BuildSubvols(numSubvols, subvolSize);
      if r.Ok? {
        SizesAreGood(r.value, subvolSize);
        DispersedCount(r.value);
      }
    }

    lemma DispersedCount(subvols: seq<Subvol>)
      requires subvolType.Dispersed? ==> Complete(disperse.Value())
      requires forall i :: 0 <= i < |subvols| ==> Shaped(subvols[i].bricks)
      ensures subvolType.Dispersed? ==>
                forall i :: 0 <= i < |subvols| ==> |subvols[i].bricks| == disperse.data + disperse.redundancy
    {
    }

    lemma SizesAreGood(subvols: seq<Subvol>, subvolSize: nat)
      requires |subvols| >= 1 && DataBricks() >= 1 && subvolSize == Share(size, |subvols|, 1)
      requires 0 < maxBrickSize < size ==> Enough(|subvols|, maxBrickSize, DataBricks(), size)
      requires forall i, j :: 0 <= i < |subvols| && 0 <= j < |subvols[i].bricks| && subvols[i].bricks[j].kind.Data? ==>
                 subvols[i].bricks[j].size == NormalizeSize(DataSize(subvolSize))
      ensures GoodLayout(subvols)
    {
      assert DataSize(subvolSize) == Share(size, |subvols|, DataBricks());
      hide LosesLittle, Enough, Share;
      LossBound(size, |subvols|, DataBricks());
      if maxBrickSize > 0 {
        ShareFits(size, |subvols|, DataBricks(), maxBrickSize);
      }
    }

    /** Subvolume i is made of the planned bricks: as many as the request asks for, data bricks of the
        share, the arbiter of its own size, each with the pool and metadata that its size needs. */
    ghost predicate Made(sv: Subvol, i: nat, subvolSize: nat)
      requires subvolType.Dispersed? ==> disperse.data > 0
      reads this, disperse
    {
      && sv.kind == subvolType
      && |sv.bricks| == (if BricksCount() > 0 then BricksCount() else 0)
      && forall j :: 0 <= j < |sv.bricks| ==> sv.bricks[j] == MakeBrick(i, j, BrickSize(subvolSize, j))
    }

    function DataSize(subvolSize: nat): nat
      requires subvolType.Dispersed? ==> disperse.data > 0
      reads this, disperse
    {
      if subvolType.Dispersed? then subvolSize / disperse.data else subvolSize
    }

    /** The space a data brick needs when there are n subvolumes. */
    function DataNeed(n: nat): nat
      requires n >= 1 && (subvolType.Dispersed? ==> disperse.data > 0)
      reads this, disperse
    {
      MakeBrick(0, 0, DataSize(Share(size, n, 1))).totalSize
    }

    /** The space the arbiter needs then. */
    function ArbiterNeed(n: nat): nat
      requires n >= 1 && replicaCount >= 0
      reads this
    {
      MakeBrick(0, replicaCount, ArbiterSize(Share(size, n, 1))).totalSize
    }

    lemma BrickFacts(i: nat, j: nat, subvolSize: nat)
      requires subvolType.Dispersed? ==> disperse.data > 0
      ensures var b := MakeBrick(i, j, BrickSize(subvolSize, j));
              && b.totalSize == b.tpSize + b.metadataSize && b.tpSize % 512 == 0
              && b.metadataSize % 512 == 0 && b.metadataSize <= MAX_METADATA_SIZE
              && (b.kind.Data? ==> b.totalSize == MakeBrick(0, 0, DataSize(subvolSize)).totalSize)
              && (b.kind.Data? ==> b.size == NormalizeSize(DataSize(subvolSize)))
              && (b.kind.Arbiter? <==> subvolType.Replicate? && arbiterCount > 0 && j == replicaCount)
              && b == MakeBrick(0, j, BrickSize(subvolSize, j)).(subvol := i)
    {
    }

    lemma MadeFacts(subvols: seq<Subvol>, subvolSize: nat)
      requires subvolType.Dispersed? ==> disperse.data > 0
      requires forall i :: 0 <= i < |subvols| ==> Made(subvols[i], i, subvolSize)
      ensures Uniform(subvols) && Proportioned(subvols, MakeBrick(0, 0, DataSize(subvolSize)).totalSize)
      ensures forall i, j :: 0 <= i < |subvols| && 0 <= j < |subvols[i].bricks| && subvols[i].bricks[j].kind.Data? ==>
                subvols[i].bricks[j].size == NormalizeSize(DataSize(subvolSize))
    {
      hide MakeBrick, BrickSize, DataSize, NormalizeSize, BricksCount;
      forall i, j | 0 <= i < |subvols| && 0 <= j < |subvols[i].bricks|
        ensures subvols[i].bricks[j] == MakeBrick(i, j, BrickSize(subvolSize, j))
        ensures |subvols[0].bricks| == |subvols[i].bricks| && subvols[0].bricks[j] == MakeBrick(0, j, BrickSize(subvolSize, j))
      {
        assert Made(subvols[i], i, subvolSize) && Made(subvols[0], 0, subvolSize);
      }
      forall i: nat, j: nat {
        BrickFacts(i, j, subvolSize);
      }
    }

    method BuildSubvols(n: nat, subvolSize: nat) returns (r: Result<seq<Subvol>>)
      requires n > 0 && (subvolType.Dispersed? ==> disperse.data > 0)
      ensures r.Err? <==> TooSmall(subvolSize)
      ensures r.Ok? ==>
                && |r.value| == n && Uniform(r.value) && (forall i :: 0 <= i < n ==> Shaped(r.value[i].bricks))
                && Proportioned(r.value, MakeBrick(0, 0, DataSize(subvolSize)).totalSize)
                && (forall i :: 0 <= i < n ==> Made(r.value[i], i, subvolSize))
                && (forall i, j :: 0 <= i < n && 0 <= j < |r.value[i].bricks| && r.value[i].bricks[j].kind.Data? ==>
                      r.value[i].bricks[j].size == NormalizeSize(DataSize(subvolSize)))
    {
      hide MakeBrick, BrickSize, Uniform, Proportioned, NormalizeSize, Shaped;
      var subvols: seq<Subvol> := [];
      for i := 0 to n
        invariant |subvols| == i && forall k :: 0 <= k < i ==> Made(subvols[k], k, subvolSize) && Shaped(subvols[k].bricks)
        invariant i > 0 ==> forall j: nat :: j < BricksCount() ==> BrickSize(subvolSize, j) >= MIN_BRICK_SIZE
      {
        var bricks := SubvolBricks(i, subvolSize);
        if bricks.Err? {
          return Err(bricks.reason);
        }
        subvols := subvols + [Subvol(subvolType, bricks.value)];
      }
      MadeFacts(subvols, subvolSize);
      r := Ok(subvols);
    }
  }
}

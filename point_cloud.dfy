/** A point cloud: a pool of vertices whose attributes live in one property
    container. Vertices are deleted by setting their "v:deleted" flag and are
    physically removed only by the garbage collector, which partitions the pool
    into a live prefix and a deleted suffix by swapping whole rows and then
    truncates it. */
module PointClouds {
  import opened PropertyStore
  import opened Attributes

  /** Positions of the standard vertex properties, in the order the constructor registers them. */
  const PointCol := 0
  const DeletedCol := 1

  /** The name of the temporary handle map the garbage collector adds and removes. */
  const GcName := "v:garbage-collection"

  /** The vertex container of a newly constructed point cloud: the standard properties, no vertices. */
  function StandardVertices(): Container<Value>
  {
    Container([Column("v:point", Point(Origin), []), Column("v:deleted", Flag(false), [])], 0)
  }

  /** The container holds the standard properties first, with their standard defaults. */
  ghost predicate HasStandardColumns(c: Container<Value>)
  {
    && WellFormed(c) && |c.columns| >= 2
    && c.columns[PointCol].name == "v:point" && c.columns[PointCol].default == Point(Origin)
    && c.columns[DeletedCol].name == "v:deleted" && c.columns[DeletedCol].default == Flag(false)
  }

  predicate IsDeleted(c: Container<Value>, v: nat)
    requires Aligned(c) && DeletedCol < |c.columns| && v < c.size
  {
    c.columns[DeletedCol].data[v] == Flag(true)
  }

  function FirstDeletedFrom(c: Container<Value>, k: nat): (r: nat)
    requires Aligned(c) && DeletedCol < |c.columns| && k <= c.size
    decreases c.size - k
    ensures k <= r <= c.size
    ensures forall v :: k <= v < r ==> !IsDeleted(c, v)
    ensures r < c.size ==> IsDeleted(c, r)
  {
    if k == c.size || IsDeleted(c, k) then k else FirstDeletedFrom(c, k + 1)
  }

  /** The index of the first vertex flagged deleted, or the vertex count when there is none. */
  function FirstDeleted(c: Container<Value>): (r: nat)
    requires Aligned(c) && DeletedCol < |c.columns|
    ensures r <= c.size
    ensures forall v :: 0 <= v < r ==> !IsDeleted(c, v)
    ensures r < c.size ==> IsDeleted(c, r)
  {
    FirstDeletedFrom(c, 0)
  }

  /** `after` holds exactly the live rows of `before`, each one whole and each
      one once: row k of `after` is row origin[k] of `before`. */
  ghost predicate Compacted(before: Container<Value>, after: Container<Value>, origin: seq<nat>)
    requires Aligned(before) && DeletedCol < |before.columns|
  {
    && Aligned(after) && after.size == |origin| && SameShape(before, after)
    && (forall k :: 0 <= k < |origin| ==> origin[k] < before.size && !IsDeleted(before, origin[k]))
    && (forall k, l :: 0 <= k < l < |origin| ==> origin[k] != origin[l])
    && (forall v :: 0 <= v < before.size && !IsDeleted(before, v) ==> v in origin)
    && (forall col, k :: 0 <= col < |before.columns| && 0 <= k < |origin| ==>
          after.columns[col].data[k] == before.columns[col].data[origin[k]])
  }

  /** `c` is `c0` with its rows permuted: row k of `c` is row perm[k] of `c0`,
      and `inv` is the inverse permutation. */
  ghost predicate Permuted(c0: Container<Value>, c: Container<Value>, perm: seq<nat>, inv: seq<nat>)
  {
    && Aligned(c0) && Aligned(c) && c.size == c0.size && SameShape(c0, c)
    && |perm| == c.size && |inv| == c.size
    && (forall k :: 0 <= k < c.size ==> perm[k] < c.size && inv[perm[k]] == k)
    && (forall v :: 0 <= v < c.size ==> inv[v] < c.size && perm[inv[v]] == v)
    && (forall col, k :: 0 <= col < |c.columns| && 0 <= k < c.size ==>
          c.columns[col].data[k] == c0.columns[col].data[perm[k]])
  }

  /** Swapping two rows composes the permutation with that transposition. */
  lemma SwapKeepsPermuted(c0: Container<Value>, c: Container<Value>, perm: seq<nat>, inv: seq<nat>, a: nat, b: nat)
    requires Permuted(c0, c, perm, inv) && a < c.size && b < c.size && a != b
    ensures Permuted(c0, SwapRows(c, a, b), perm[a := perm[b]][b := perm[a]], inv[perm[b] := a][perm[a] := b])
  {
    var perm' := perm[a := perm[b]][b := perm[a]];
    var inv' := inv[perm[b] := a][perm[a] := b];
    assert perm[a] != perm[b];
    forall k | 0 <= k < c.size
      ensures perm'[k] < c.size && inv'[perm'[k]] == k
    {
      if k != a && k != b {
        assert perm[k] != perm[a] && perm[k] != perm[b];
      }
    }
    forall v | 0 <= v < c.size
      ensures inv'[v] < c.size && perm'[inv'[v]] == v
    {
      if v != perm[a] && v != perm[b] {
        assert inv[v] != a && inv[v] != b;
      }
    }
  }


  /** After a row swap, each row's deleted flag is the one of the row that moved there. */
  lemma SwapFlags(c: Container<Value>, a: nat, b: nat)
    requires Aligned(c) && DeletedCol < |c.columns| && a < c.size && b < c.size
    ensures forall x :: 0 <= x < c.size ==>
      IsDeleted(SwapRows(c, a, b), x) == IsDeleted(c, if x == a then b else if x == b then a else x)
    ensures Flags(SwapRows(c, a, b), DeletedCol) ==
      Flags(c, DeletedCol)[a := Flags(c, DeletedCol)[b]][b := Flags(c, DeletedCol)[a]]
  {
  }

  /** The invariant of the partition loop between rows i0 and i1: `c` is `pool`
      with its rows permuted, the rows before i0 are live, the rows after i1
      deleted, the rows before the first deleted row of `pool` have not moved,
      and the number of deleted rows is unchanged. */
  ghost predicate Partitioning(pool: Container<Value>, c: Container<Value>, perm: seq<nat>, inv: seq<nat>,
                               i0: nat, i1: nat, first: nat)
  {
    && Permuted(pool, c, perm, inv) && DeletedCol < |c.columns| && first <= c.size
    && (DistinctNames(pool) ==> DistinctNames(c))
    && (forall k :: 0 <= k < i0 && k < c.size ==> !IsDeleted(c, k))
    && (forall k :: i1 < k < c.size ==> IsDeleted(c, k))
    && (forall k :: 0 <= k < first ==> perm[k] == k && !IsDeleted(c, k))
    && CountSet(Flags(c, DeletedCol)) == CountSet(Flags(pool, DeletedCol))
  }

  /** The partition loop starts from the identity permutation with nothing scanned. */
  lemma PartitionStart(pool: Container<Value>, id: seq<nat>, last: nat)
    requires Aligned(pool) && DeletedCol < |pool.columns| && pool.size == last + 1
    requires |id| == pool.size && forall k :: 0 <= k < |id| ==> id[k] == k
    ensures Partitioning(pool, pool, id, id, 0, last, FirstDeleted(pool))
  {
  }

  /** The scans of one round extend the live prefix and the deleted suffix. */
  lemma ScanKeeps(pool: Container<Value>, c: Container<Value>, perm: seq<nat>, inv: seq<nat>,
                  i0: nat, i1: nat, j0: nat, j1: nat, first: nat)
    requires Partitioning(pool, c, perm, inv, i0, i1, first) && i0 <= j0 <= j1 <= i1 < c.size
    requires forall k :: i0 <= k < j0 ==> !IsDeleted(c, k)
    requires forall k :: j1 < k <= i1 ==> IsDeleted(c, k)
    ensures Partitioning(pool, c, perm, inv, j0, j1, first)
  {
  }

  /** One swap of the partition loop keeps the loop's invariants: the deleted
      row i0 and the live row i1 of `c0` trade places in `c`. */
  ghost method SwapStep(pool: Container<Value>, c0: Container<Value>, perm0: seq<nat>, inv0: seq<nat>,
                        i0: nat, i1: nat, first: nat) returns (perm: seq<nat>, inv: seq<nat>)
    requires Partitioning(pool, c0, perm0, inv0, i0, i1, first)
    requires i0 < i1 < c0.size && IsDeleted(c0, i0) && !IsDeleted(c0, i1)
    ensures Partitioning(pool, SwapRows(c0, i0, i1), perm, inv, i0, i1, first)
    ensures !IsDeleted(SwapRows(c0, i0, i1), i0) && IsDeleted(SwapRows(c0, i0, i1), i1)
  {
    assert i0 >= first;
    SwapKeepsPermuted(pool, c0, perm0, inv0, i0, i1);
    SwapFlags(c0, i0, i1);
    CountSwap(Flags(c0, DeletedCol), i0, i1);
    perm := perm0[i0 := perm0[i1]][i1 := perm0[i0]];
    inv := inv0[perm0[i1] := i0][perm0[i0] := i1];
  }

  lemma FlagsAreDeleted(c: Container<Value>)
    requires Aligned(c) && DeletedCol < |c.columns|
    ensures |Flags(c, DeletedCol)| == c.size
    ensures forall v :: 0 <= v < c.size ==> Flags(c, DeletedCol)[v] == IsDeleted(c, v)
  {
  }

  /** The two scans of one round of the partition loop: `j0` is the first
      deleted row from `i0` on and `j1` the last live row up to `i1`, unless
      the scans meet first. */
  method Scan(c: Container<Value>, i0: nat, i1: nat) returns (j0: nat, j1: nat)
    requires Aligned(c) && DeletedCol < |c.columns| && i0 <= i1 < c.size
    ensures i0 <= j0 <= j1 <= i1
    ensures forall k :: i0 <= k < j0 ==> !IsDeleted(c, k)
    ensures forall k :: j1 < k <= i1 ==> IsDeleted(c, k)
    ensures j0 < j1 ==> IsDeleted(c, j0) && !IsDeleted(c, j1)
  {
    j0, j1 := i0, i1;
    while !IsDeleted(c, j0) && j0 < j1
      invariant i0 <= j0 <= j1
      invariant forall k :: i0 <= k < j0 ==> !IsDeleted(c, k)
    {
      j0 := j0 + 1;
    }
    while IsDeleted(c, j1) && j0 < j1
      invariant j0 <= j1 <= i1
      invariant forall k :: j1 < k <= i1 ==> IsDeleted(c, k)
    {
      j1 := j1 - 1;
    }
  }

  /** When the partition loop stops, the live rows form a prefix of length n:
      n is the number of live rows and the first deleted row of the original
      container is not beyond it. */
  lemma PartitionEnd(pool: Container<Value>, c: Container<Value>, n: nat, first: nat)
    requires Aligned(pool) && Aligned(c) && DeletedCol < |c.columns| && DeletedCol < |pool.columns|
    requires n <= c.size
    requires forall k :: 0 <= k < n ==> !IsDeleted(c, k)
    requires forall k :: n <= k < c.size ==> IsDeleted(c, k)
    requires first <= c.size
    requires forall k :: 0 <= k < first ==> !IsDeleted(c, k)
    requires CountSet(Flags(c, DeletedCol)) == CountSet(Flags(pool, DeletedCol)) && c.size == pool.size
    ensures n == pool.size - CountSet(Flags(pool, DeletedCol))
    ensures first <= n
  {
    FlagsAreDeleted(c);
    CountPartitioned(Flags(c, DeletedCol), n);
    assert n < c.size ==> IsDeleted(c, n);
  }

  /** The partition loop of the garbage collector: moves every live row in
      front of every deleted one by swapping whole rows, scanning forward from
      the first row and backward from the last, and returns the number of live
      rows. */
  method PartitionLive(pool: Container<Value>) returns (c: Container<Value>, n: nat, ghost perm: seq<nat>, ghost inv: seq<nat>)
    requires Aligned(pool) && DeletedCol < |pool.columns|
    ensures Permuted(pool, c, perm, inv)
    ensures DistinctNames(pool) ==> DistinctNames(c)
    ensures n <= c.size
    ensures forall k :: 0 <= k < n ==> !IsDeleted(c, k)
    ensures forall k :: n <= k < c.size ==> IsDeleted(c, k)
    ensures n == pool.size - CountSet(Flags(pool, DeletedCol))
    ensures FirstDeleted(pool) <= n
    ensures forall k :: 0 <= k < FirstDeleted(pool) ==> perm[k] == k
  {
    n := pool.size;
    if n > 0 {
      var i0;
      c, i0, perm, inv := SwapLoop(pool);
      // the new size
      n := if IsDeleted(c, i0) then i0 else i0 + 1;
      PartitionEnd(pool, c, n, FirstDeleted(pool));
    } else {
      c := pool;
      perm, inv := [], [];
      assert Flags(pool, DeletedCol) == [];
    }
  }

  /** The swapping rounds of the partition loop, until the two scans meet at
      row i0: every row before i0 is live and every row after it deleted. */
  method SwapLoop(pool: Container<Value>) returns (c: Container<Value>, i0: nat, ghost perm: seq<nat>, ghost inv: seq<nat>)
    requires Aligned(pool) && DeletedCol < |pool.columns| && pool.size > 0
    ensures Permuted(pool, c, perm, inv)
    ensures DistinctNames(pool) ==> DistinctNames(c)
    ensures i0 < c.size
    ensures forall k :: 0 <= k < i0 ==> !IsDeleted(c, k)
    ensures forall k :: i0 < k < c.size ==> IsDeleted(c, k)
    ensures forall k :: 0 <= k < FirstDeleted(pool) ==> perm[k] == k && !IsDeleted(c, k)
    ensures CountSet(Flags(c, DeletedCol)) == CountSet(Flags(pool, DeletedCol))
  {
    c := pool;
    var n := pool.size;
    perm := seq(n, k => k);
    inv := perm;
    ghost var first := FirstDeleted(pool);
    i0 := 0;
    var i1 := n - 1;
    PartitionStart(pool, perm, i1);
    while true
      invariant 0 <= i0 <= i1 < c.size == n
      invariant Partitioning(pool, c, perm, inv, i0, i1, first)
      decreases i1 - i0 + (if IsDeleted(c, i0) then 1 else 0) + (if IsDeleted(c, i1) then 0 else 1)
    {
      // find the first deleted and the last undeleted row
      ghost var s0, s1 := i0, i1;
      i0, i1 := Scan(c, i0, i1);
      ScanKeeps(pool, c, perm, inv, s0, s1, i0, i1, first);
      if i0 >= i1 {
        break;
      }
      // exchange the deleted row i0 with the live row i1
      perm, inv := SwapStep(pool, c, perm, inv, i0, i1, first);
      c := SwapRows(c, i0, i1);
    }
  }

  /** The standard properties are the first two property arrays, and are found by name there. */
  lemma FindStandard(c: Container<Value>)
    requires HasStandardColumns(c)
    ensures Find(c, "v:point") == Some(PointCol)
    ensures Find(c, "v:deleted") == Some(DeletedCol)
  {
    assert Names(c)[PointCol] == "v:point";
    assert Names(c)[DeletedCol] == "v:deleted";
  }

  /** The standard property arrays of `c`, copied into a container that has
      only the standard properties, and resized to `c`'s size, give `c`
      without its other property arrays. */
  lemma StandardCopied(c: Container<Value>, copy: Container<Value>)
    requires HasStandardColumns(c)
    requires copy == SetArray(SetArray(StandardVertices(), PointCol, c.columns[PointCol].data),
                              DeletedCol, c.columns[DeletedCol].data)
    ensures Resize(copy, c.size) == KeepFirst(c, 2)
    ensures Flags(Resize(copy, c.size), DeletedCol) == Flags(c, DeletedCol)
  {
    ContainerExt(Resize(copy, c.size), KeepFirst(c, 2));
  }

  /** The vertex container of `a` after joining `b`: `b`'s vertices appended
      to `a`'s, every property array of `a` filled from the array of the same
      name in `b`, or with its default where `b` has none. */
  function Joined(a: Container<Value>, b: Container<Value>): (r: Container<Value>)
    requires HasStandardColumns(a) && HasStandardColumns(b)
    ensures HasStandardColumns(r) && Names(r) == Names(a) && r.size == a.size + b.size
    ensures forall col, v :: 0 <= col < |a.columns| && 0 <= v < a.size ==>
              r.columns[col].data[v] == a.columns[col].data[v]
    ensures forall col, v :: 0 <= col < |a.columns| && a.size <= v < r.size ==>
              r.columns[col].data[v] ==
                match Find(b, a.columns[col].name)
                case None => a.columns[col].default
                case Some(j) => b.columns[j].data[v - a.size]
    ensures r.columns[PointCol].data == a.columns[PointCol].data + b.columns[PointCol].data
    ensures Flags(r, DeletedCol) == Flags(a, DeletedCol) + Flags(b, DeletedCol)
  {
    var r := Transfer(Resize(a, a.size + b.size), b);
    FindStandard(b);
    assert r.columns[PointCol].data == a.columns[PointCol].data + b.columns[PointCol].data;
    assert Flags(r, DeletedCol) == Flags(a, DeletedCol) + Flags(b, DeletedCol);
    r
  }

  /** Joining adds up the numbers of deleted vertices. */
  lemma JoinedCount(a: Container<Value>, b: Container<Value>)
    requires HasStandardColumns(a) && HasStandardColumns(b)
    ensures CountSet(Flags(Joined(a, b), DeletedCol)) == CountSet(Flags(a, DeletedCol)) + CountSet(Flags(b, DeletedCol))
  {
    CountAppend(Flags(a, DeletedCol), Flags(b, DeletedCol));
  }

  class PointCloud {
    var vprops: Container<Value>
    var mprops: Container<Value>
    var deletedVertices: nat
    var garbage: bool

    /** The standard properties are in place, the deleted counter is the number
        of vertices flagged deleted, and the garbage flag is set exactly when
        that number is positive. */
    ghost predicate Valid()
      reads this
    {
      && HasStandardColumns(vprops)
      && WellFormed(mprops)
      && deletedVertices == CountSet(Flags(vprops, DeletedCol))
      && garbage == (deletedVertices > 0)
    }

    constructor ()
      ensures Valid()
      ensures vprops == StandardVertices() && mprops == Container([], 1)
      ensures deletedVertices == 0 && !garbage
    {
      var points := Add(Empty(), "v:point", Point(Origin));
      var flags := Add(points.value, "v:deleted", Flag(false));
      vprops := flags.value;
      mprops := PushBack(Empty());
      deletedVertices := 0;
      garbage := false;
      new;
      assert vprops.columns == StandardVertices().columns;
    }

    method AddVertex(p: Vec3) returns (v: nat)
      requires Valid()
      modifies this
      ensures Valid()
      ensures v == old(vprops.size) && vprops.size == v + 1
      ensures vprops == SetCell(PushBack(old(vprops)), PointCol, v, Point(p))
      ensures vprops.columns[PointCol].data[v] == Point(p) && !IsDeleted(vprops, v)
      ensures SameShape(old(vprops), vprops)
      ensures forall col, k :: 0 <= col < |vprops.columns| && 0 <= k < v ==>
                vprops.columns[col].data[k] == old(vprops.columns[col].data[k])
      ensures mprops == old(mprops) && deletedVertices == old(deletedVertices) && garbage == old(garbage)
    {
      // new_vertex(): one more row holding every property's default
      vprops := PushBack(vprops);
      v := vprops.size - 1;
      vprops := SetCell(vprops, PointCol, v, Point(p));
      assert Flags(vprops, DeletedCol) == old(Flags(vprops, DeletedCol)) + [false];
      CountAppend(old(Flags(vprops, DeletedCol)), [false]);
    }

    method DeleteVertex(v: nat)
      requires Valid() && v < vprops.size
      modifies this
      ensures Valid()
      ensures vprops.size == old(vprops.size) && IsDeleted(vprops, v)
      ensures old(IsDeleted(vprops, v)) ==> unchanged(this)
      ensures !old(IsDeleted(vprops, v)) ==>
        && vprops == SetCell(old(vprops), DeletedCol, v, Flag(true))
        && deletedVertices == old(deletedVertices) + 1
        && garbage
      ensures mprops == old(mprops)
    {
      if IsDeleted(vprops, v) {
        return;
      }
      ghost var flags := Flags(vprops, DeletedCol);
      vprops := SetCell(vprops, DeletedCol, v, Flag(true));
      deletedVertices := deletedVertices + 1;
      garbage := true;
      assert Flags(vprops, DeletedCol) == flags[v := true];
      CountMark(flags, v);
    }

    /** operator=: a deep copy of both property containers and of the counters. */
    method CopyAssign(rhs: PointCloud)
      requires rhs.Valid()
      modifies this
      ensures Valid()
      ensures rhs != this ==>
        && vprops == rhs.vprops && mprops == rhs.mprops
        && deletedVertices == rhs.deletedVertices && garbage == rhs.garbage
      ensures rhs == this ==> unchanged(this)
    {
      if rhs != this {
        vprops := rhs.vprops;
        mprops := rhs.mprops;
        deletedVertices := rhs.deletedVertices;
        garbage := rhs.garbage;
      }
    }

    /** Appends the vertices of `other`, with every property this cloud has. */
    method Join(other: PointCloud)
      requires Valid() && other.Valid() && other != this
      modifies this
      ensures Valid()
      ensures vprops == Joined(old(vprops), other.vprops)
      ensures deletedVertices == old(deletedVertices) + other.deletedVertices
      ensures garbage == (old(garbage) || other.garbage)
      ensures mprops == old(mprops)
    {
      // grow by the other cloud's vertex count and fill the new rows from it
      var joined := Joined(vprops, other.vprops);
      JoinedCount(vprops, other.vprops);
      assert HasStandardColumns(joined);
      assert CountSet(Flags(joined, DeletedCol)) == deletedVertices + other.deletedVertices;
      vprops := joined;
      // the flags and the counters of both clouds add up
      garbage := garbage || other.garbage;
      deletedVertices := deletedVertices + other.deletedVertices;
    }

    /** Replaces the contents by the vertices of `rhs` with only the standard
        properties; the model properties are dropped. */
    method Assign(rhs: PointCloud)
      requires rhs.Valid()
      modifies this
      ensures Valid()
      ensures rhs != this ==>
        && vprops == KeepFirst(rhs.vprops, 2) && mprops == Container([], 1)
        && deletedVertices == rhs.deletedVertices && garbage == rhs.garbage
      ensures rhs == this ==> unchanged(this)
    {
      if rhs != this {
        // start again from fresh standard arrays and an empty model slot
        var standard := StandardVertices();
        mprops := Empty();
        // copy the standard arrays from the other cloud
        standard := SetArray(standard, PointCol, rhs.vprops.columns[PointCol].data);
        standard := SetArray(standard, DeletedCol, rhs.vprops.columns[DeletedCol].data);
        // resize (the arrays already hold rhs's entries)
        StandardCopied(rhs.vprops, standard);
        vprops := Resize(standard, rhs.vprops.size);
        mprops := Resize(mprops, 1);
        deletedVertices := rhs.deletedVertices;
        garbage := rhs.garbage;
      }
    }

    /** Removes every vertex and every non-standard property. */
    method Clear()
      requires Valid()
      modifies this
      ensures Valid()
      ensures vprops == StandardVertices() && mprops == Container([], 1)
      ensures deletedVertices == 0 && !garbage
    {
      vprops := Resize(vprops, 0);
      deletedVertices := 0;
      garbage := false;
      // keep the standard properties and remove all the others
      vprops := KeepFirst(vprops, 2);
      mprops := Resize(Empty(), 1);
      assert vprops.columns == StandardVertices().columns;
      assert Flags(vprops, DeletedCol) == [];
    }

    method CollectGarbage() returns (ghost origin: seq<nat>)
      requires Valid()
      requires GcName !in Names(vprops)
      modifies this
      ensures Valid()
      ensures deletedVertices == 0 && !garbage
      ensures vprops.size == old(vprops.size) - old(deletedVertices)
      ensures forall v :: 0 <= v < vprops.size ==> !IsDeleted(vprops, v)
      ensures Compacted(old(vprops), vprops, origin)
      ensures FirstDeleted(old(vprops)) <= vprops.size
      ensures forall k :: 0 <= k < FirstDeleted(old(vprops)) ==> origin[k] == k
      ensures old(deletedVertices) == 0 ==> vprops == old(vprops)
      ensures mprops == old(mprops)
    {
      ghost var before := vprops;
      var compacted;
      compacted, origin := Compact(vprops);
      if deletedVertices == 0 {
        CompactIdle(before, compacted, origin);
      }
      vprops := compacted;
      deletedVertices := 0;
      garbage := false;
    }
  }

  /** The garbage collector on the vertex container: sets up the handle map
      "v:garbage-collection" (row i holds vertex i), partitions the rows into a
      live prefix and a deleted suffix, removes the handle map and truncates
      the container to the live prefix. */
  method Compact(pool: Container<Value>) returns (r: Container<Value>, ghost origin: seq<nat>)
    requires HasStandardColumns(pool)
    requires GcName !in Names(pool)
    ensures HasStandardColumns(r)
    ensures Compacted(pool, r, origin)
    ensures r.size == pool.size - CountSet(Flags(pool, DeletedCol))
    ensures forall v :: 0 <= v < r.size ==> !IsDeleted(r, v)
    ensures CountSet(Flags(r, DeletedCol)) == 0
    ensures FirstDeleted(pool) <= r.size
    ensures forall k :: 0 <= k < FirstDeleted(pool) ==> origin[k] == k
  {
    var nV := pool.size;
    var m := |pool.columns|;
    var c := AddHandleMap(pool);
    ghost var mapped := c;
    MappedAgrees(pool, mapped, m);

    // move the live rows to the front
    ghost var perm, inv;
    c, nV, perm, inv := PartitionLive(c);
    Compaction(pool, mapped, c, m, perm, inv, nV);

    // drop the handle map and truncate to the live prefix
    c := Remove(c, GcName);
    r := Resize(c, nV);
    origin := perm[..nV];
    CompactedIsClean(pool, r, origin);
  }

  /** A container holding only live rows of a container with the standard
      properties has the standard properties and no row flagged deleted. */
  lemma CompactedIsClean(before: Container<Value>, after: Container<Value>, origin: seq<nat>)
    requires HasStandardColumns(before) && Compacted(before, after, origin)
    ensures HasStandardColumns(after)
    ensures forall v :: 0 <= v < after.size ==> !IsDeleted(after, v)
    ensures CountSet(Flags(after, DeletedCol)) == 0
  {
    forall v | 0 <= v < after.size
      ensures !IsDeleted(after, v)
    {
      assert after.columns[DeletedCol].data[v] == before.columns[DeletedCol].data[origin[v]];
    }
    FlagsAreDeleted(after);
    CountZero(Flags(after, DeletedCol));
  }

  /** Sets up the handle map of the garbage collector: a new property array
      "v:garbage-collection" after the existing ones, in which row i holds vertex i. */
  method AddHandleMap(pool: Container<Value>) returns (c: Container<Value>)
    requires WellFormed(pool) && GcName !in Names(pool)
    ensures WellFormed(c) && c.size == pool.size && |c.columns| == |pool.columns| + 1
    ensures c.columns[..|pool.columns|] == pool.columns
    ensures c.columns[|pool.columns|].name == GcName
    ensures forall k :: 0 <= k < c.size ==> c.columns[|pool.columns|].data[k] == VertexRef(k)
  {
    var m := |pool.columns|;
    var added := Add(pool, GcName, VertexRef(Invalid));
    c := added.value;
    assert c.columns[m].name == GcName by {
      assert Names(c)[m] == GcName;
    }
    var i := 0;
    while i < c.size
      invariant 0 <= i <= c.size == pool.size
      invariant WellFormed(c) && |c.columns| == m + 1
      invariant c.columns[..m] == pool.columns
      invariant c.columns[m].name == GcName
      invariant forall k :: 0 <= k < i ==> c.columns[m].data[k] == VertexRef(k)
    {
      c := SetCell(c, m, i, VertexRef(i));
      i := i + 1;
    }
  }

  /** Collecting garbage when no vertex is flagged deleted leaves the container as it was. */
  lemma CompactIdle(before: Container<Value>, after: Container<Value>, origin: seq<nat>)
    requires HasStandardColumns(before) && CountSet(Flags(before, DeletedCol)) == 0
    requires Compacted(before, after, origin) && after.size == before.size
    requires forall k :: 0 <= k < FirstDeleted(before) ==> origin[k] == k
    ensures after == before
  {
    FlagsAreDeleted(before);
    CountZero(Flags(before, DeletedCol));
    assert FirstDeleted(before) == before.size;
    forall col, k | 0 <= col < |after.columns| && 0 <= k < after.size
      ensures after.columns[col].data[k] == before.columns[col].data[k]
    {
      assert origin[k] == k;
    }
    ContainerExt(after, before);
  }

  /** The container with the handle map set up agrees with `before` on every
      original property array and on the position of the first deleted row. */
  lemma MappedAgrees(before: Container<Value>, mapped: Container<Value>, m: nat)
    requires HasStandardColumns(before) && m == |before.columns|
    requires WellFormed(mapped) && mapped.size == before.size && |mapped.columns| == m + 1
    requires mapped.columns[..m] == before.columns
    ensures forall col :: 0 <= col < m ==> mapped.columns[col] == before.columns[col]
    ensures FirstDeleted(mapped) == FirstDeleted(before)
  {
    forall col | 0 <= col < m
      ensures mapped.columns[col] == before.columns[col]
    {
      assert mapped.columns[col] == mapped.columns[..m][col];
    }
    assert mapped.columns[DeletedCol] == before.columns[DeletedCol];
    assert forall v :: 0 <= v < before.size ==> IsDeleted(mapped, v) == IsDeleted(before, v);
  }

  /** The end of the garbage collector: once the partition has put the n live
      rows first, dropping the handle map and keeping the first n rows leaves
      exactly the live rows of `before`, and the handle map held the permutation. */
  lemma Compaction(before: Container<Value>, mapped: Container<Value>, c: Container<Value>, m: nat,
                   perm: seq<nat>, inv: seq<nat>, n: nat)
    requires HasStandardColumns(before) && m == |before.columns|
    requires WellFormed(mapped) && mapped.size == before.size && |mapped.columns| == m + 1
    requires forall col :: 0 <= col < m ==> mapped.columns[col] == before.columns[col]
    requires mapped.columns[m].name == GcName
    requires forall k :: 0 <= k < mapped.size ==> mapped.columns[m].data[k] == VertexRef(k)
    requires Permuted(mapped, c, perm, inv) && DistinctNames(c)
    requires n <= c.size
    requires forall k :: 0 <= k < n ==> !IsDeleted(c, k)
    requires forall k :: n <= k < c.size ==> IsDeleted(c, k)
    ensures forall k :: 0 <= k < c.size ==> c.columns[m].data[k] == VertexRef(perm[k])
    ensures Remove(c, GcName).columns == c.columns[..m]
    ensures Compacted(before, Resize(Remove(c, GcName), n), perm[..n])
  {
    var found := Find(c, GcName);
    assert found.Some? by {
      assert Names(c)[m] == GcName;
    }
    assert found.value == m;
    assert mapped.columns[DeletedCol] == before.columns[DeletedCol];
    LiveRowsKept(before, mapped, c, perm, inv, n);
    CellsKept(before, mapped, c, m, perm, n);
  }

  /** The first n rows of the partitioned container came from distinct live
      rows, and every live row is among them. */
  lemma LiveRowsKept(before: Container<Value>, mapped: Container<Value>, c: Container<Value>,
                     perm: seq<nat>, inv: seq<nat>, n: nat)
    requires Aligned(before) && DeletedCol < |before.columns| && mapped.size == before.size
    requires DeletedCol < |mapped.columns| && mapped.columns[DeletedCol] == before.columns[DeletedCol]
    requires Permuted(mapped, c, perm, inv)
    requires n <= c.size
    requires forall k :: 0 <= k < n ==> !IsDeleted(c, k)
    requires forall k :: n <= k < c.size ==> IsDeleted(c, k)
    ensures forall k :: 0 <= k < n ==> perm[k] < before.size && !IsDeleted(before, perm[k])
    ensures forall k, l :: 0 <= k < l < n ==> perm[k] != perm[l]
    ensures forall v :: 0 <= v < before.size && !IsDeleted(before, v) ==> v in perm[..n]
  {
    forall k | 0 <= k < n
      ensures perm[k] < before.size && !IsDeleted(before, perm[k])
    {
      assert !IsDeleted(c, k);
      assert c.columns[DeletedCol].data[k] == mapped.columns[DeletedCol].data[perm[k]];
    }
    forall v | 0 <= v < before.size && !IsDeleted(before, v)
      ensures v in perm[..n]
    {
      var k := inv[v];
      assert k < c.size && perm[k] == v;
      assert c.columns[DeletedCol].data[k] == mapped.columns[DeletedCol].data[v];
      assert !IsDeleted(c, k);
      assert perm[..n][k] == v;
    }
    forall k, l | 0 <= k < l < n
      ensures perm[k] != perm[l]
    {
      assert inv[perm[k]] == k && inv[perm[l]] == l;
    }
  }

  /** Dropping the handle map and truncating to n rows keeps, in every original
      property array, the entries the permutation brought to the first n rows. */
  lemma CellsKept(before: Container<Value>, mapped: Container<Value>, c: Container<Value>, m: nat,
                  perm: seq<nat>, n: nat)
    requires WellFormed(before) && m == |before.columns|
    requires WellFormed(c) && |c.columns| == m + 1 && c.columns[m].name == GcName
    requires Find(c, GcName) == Some(m)
    requires Aligned(mapped) && mapped.size == before.size && |mapped.columns| == m + 1
    requires forall col :: 0 <= col < m ==> mapped.columns[col] == before.columns[col]
    requires c.size == mapped.size && SameShape(mapped, c) && |perm| == c.size && n <= c.size
    requires forall k :: 0 <= k < c.size ==> perm[k] < c.size
    requires forall col, k :: 0 <= col < |c.columns| && 0 <= k < c.size ==>
               c.columns[col].data[k] == mapped.columns[col].data[perm[k]]
    ensures Remove(c, GcName).columns == c.columns[..m]
    ensures SameShape(before, Resize(Remove(c, GcName), n))
    ensures forall col, k :: 0 <= col < m && 0 <= k < n ==>
              Resize(Remove(c, GcName), n).columns[col].data[k] == before.columns[col].data[perm[k]]
  {
    var removed := Remove(c, GcName);
    assert removed.columns == c.columns[..m];
    forall col | 0 <= col < m
      ensures removed.columns[col] == c.columns[col]
      ensures c.columns[col].name == before.columns[col].name
      ensures c.columns[col].default == before.columns[col].default
    {
    }
  }

}

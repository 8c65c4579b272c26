/** The values stored in the property arrays of the point cloud and the graph,
    and the count of elements whose deleted flag is set. */
module Attributes {
  import opened PropertyStore

  /** A 3D point; coordinates are carried, never computed with. */
  datatype Vec3 = Vec3(x: real, y: real, z: real)

  const Origin := Vec3(0.0, 0.0, 0.0)

  /** The index of a default-constructed (invalid) vertex or edge handle. */
  const Invalid: int := -1

  /** One entry of a property array, whatever the array's element type. */
  datatype Value =
    | Point(position: Vec3)             // vec3: "v:point"
    | Flag(on: bool)                    // bool: "v:deleted", "e:deleted"
    | VertexRef(vertex: int)            // Vertex handle: "v:garbage-collection"
    | Links(edges: seq<int>)            // VertexConnectivity: incident edges, in insertion order
    | Ends(source: int, target: int)    // EdgeConnectivity: the two end vertices

  /** The deleted flags held by the array at position `col`, one per element. */
  function Flags(c: Container<Value>, col: nat): seq<bool>
    requires Aligned(c) && col < |c.columns|
  {
    seq(c.size, i requires 0 <= i < c.size => c.columns[col].data[i] == Flag(true))
  }

  /** How many flags are set. */
  function CountSet(flags: seq<bool>): (n: nat)
    ensures n <= |flags|
  {
    if flags == [] then 0 else (if flags[0] then 1 else 0) + CountSet(flags[1..])
  }

  lemma {:induction false} CountAppend(a: seq<bool>, b: seq<bool>)
    ensures CountSet(a + b) == CountSet(a) + CountSet(b)
  {
    if a != [] {
      assert (a + b)[1..] == a[1..] + b;
      CountAppend(a[1..], b);
    } else {
      assert a + b == b;
    }
  }

  /** Setting a flag that was clear raises the count by exactly one. */
  lemma {:induction false} CountMark(s: seq<bool>, i: nat)
    requires i < |s| && !s[i]
    ensures CountSet(s[i := true]) == CountSet(s) + 1
  {
    if i > 0 {
      assert s[i := true][1..] == s[1..][i - 1 := true];
      CountMark(s[1..], i - 1);
    } else {
      assert s[i := true][1..] == s[1..];
    }
  }

  lemma {:induction false} CountIsMultiplicity(s: seq<bool>)
    ensures CountSet(s) == multiset(s)[true]
  {
    if s != [] {
      assert s == [s[0]] + s[1..];
      CountIsMultiplicity(s[1..]);
    }
  }

  /** Exchanging two flags leaves the count unchanged. */
  lemma CountSwap(s: seq<bool>, i: nat, j: nat)
    requires i < |s| && j < |s|
    ensures CountSet(s[i := s[j]][j := s[i]]) == CountSet(s)
  {
    var t := s[i := s[j]][j := s[i]];
    assert multiset(t) == multiset(s);
    CountIsMultiplicity(s);
    CountIsMultiplicity(t);
  }

  /** The count is zero exactly when no flag is set. */
  lemma {:induction false} CountZero(s: seq<bool>)
    ensures CountSet(s) == 0 <==> forall i :: 0 <= i < |s| ==> !s[i]
  {
    if s != [] {
      CountZero(s[1..]);
      assert forall i :: 1 <= i < |s| ==> s[i] == s[1..][i - 1];
    }
  }

  /** When the clear flags form a prefix of length k and the set ones the rest,
      the count is the length of the rest. */
  lemma {:induction false} CountPartitioned(s: seq<bool>, k: nat)
    requires k <= |s|
    requires forall i :: 0 <= i < k ==> !s[i]
    requires forall i :: k <= i < |s| ==> s[i]
    ensures CountSet(s) == |s| - k
  {
    if s != [] {
      if k == 0 {
        CountPartitioned(s[1..], 0);
      } else {
        CountPartitioned(s[1..], k - 1);
      }
    }
  }
}

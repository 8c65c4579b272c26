/** The property container shared by every element pool of the point cloud and
    the graph: one named property array (a column) per attribute, one entry
    (a row) per element. Every array of a container grows and shrinks in
    lock-step with the container's element count, and the garbage collector
    relocates an element by swapping its row across all arrays at once. */
module PropertyStore {

  datatype Option<T> = None | Some(value: T)

  /** A property array: its name, the value new elements take, and one value per element. */
  datatype Column<V> = Column(name: string, default: V, data: seq<V>)

  /** A property container: its property arrays, in registration order, and its element count. */
  datatype Container<V> = Container(columns: seq<Column<V>>, size: nat)

  /** Every property array holds exactly one value per element. */
  predicate Aligned<V>(c: Container<V>)
  {
    forall k :: 0 <= k < |c.columns| ==> |c.columns[k].data| == c.size
  }

  /** No two property arrays share a name. */
  predicate DistinctNames<V>(c: Container<V>)
  {
    forall k, l :: 0 <= k < l < |c.columns| ==> c.columns[k].name != c.columns[l].name
  }

  predicate WellFormed<V>(c: Container<V>)
  {
    Aligned(c) && DistinctNames(c)
  }

  function Names<V>(c: Container<V>): seq<string>
  {
    seq(|c.columns|, k requires 0 <= k < |c.columns| => c.columns[k].name)
  }

  /** Both containers hold property arrays of the same names and defaults, in the same order. */
  ghost predicate SameShape<V>(a: Container<V>, b: Container<V>)
  {
    && |a.columns| == |b.columns|
    && forall k :: 0 <= k < |a.columns| ==>
         a.columns[k].name == b.columns[k].name && a.columns[k].default == b.columns[k].default
  }

  /** The container with no property arrays and no elements. */
  function Empty<V>(): Container<V>
  {
    Container([], 0)
  }

  function FindFrom<V>(columns: seq<Column<V>>, name: string, k: nat): (r: Option<nat>)
    requires k <= |columns|
    decreases |columns| - k
    ensures r.Some? ==> k <= r.value < |columns| && columns[r.value].name == name
    ensures r.None? <==> forall j :: k <= j < |columns| ==> columns[j].name != name
  {
    if k == |columns| then None
    else if columns[k].name == name then Some(k)
    else FindFrom(columns, name, k + 1)
  }

  /** The position of the property array called `name`, if there is one. */
  function Find<V>(c: Container<V>, name: string): (r: Option<nat>)
    ensures r.Some? ==> r.value < |c.columns| && c.columns[r.value].name == name
    ensures r.None? <==> name !in Names(c)
  {
    var r := FindFrom(c.columns, name, 0);
    assert r.Some? ==> Names(c)[r.value] == name;
    r
  }

  /** Registers a new property array filled with `default`; refused (None) when
      an array of that name already exists. */
  function Add<V>(c: Container<V>, name: string, default: V): (r: Option<Container<V>>)
    ensures r.None? <==> name in Names(c)
    ensures r.Some? ==>
      && r.value.size == c.size
      && Names(r.value) == Names(c) + [name]
      && r.value.columns[..|c.columns|] == c.columns
      && r.value.columns[|c.columns|].default == default
      && (forall i :: 0 <= i < |r.value.columns[|c.columns|].data| ==> r.value.columns[|c.columns|].data[i] == default)
    ensures r.Some? && WellFormed(c) ==> WellFormed(r.value)
  {
    if Find(c, name).Some? then None
    else
      var r := Container(c.columns + [Column(name, default, seq(c.size, _ => default))], c.size);
      assert Names(r) == Names(c) + [name];
      Some(r)
  }

  /** Unregisters the property array called `name`; the other arrays keep their order. */
  function Remove<V>(c: Container<V>, name: string): (r: Container<V>)
    requires WellFormed(c)
    ensures WellFormed(r) && r.size == c.size
    ensures name !in Names(r)
    ensures name !in Names(c) ==> r == c
    ensures Find(c, name).Some? ==>
      r.columns == c.columns[..Find(c, name).value] + c.columns[Find(c, name).value + 1..]
  {
    match Find(c, name)
    case None => c
    case Some(k) =>
      var r := Container(c.columns[..k] + c.columns[k + 1..], c.size);
      SpliceWellFormed(c, k);
      r
  }

  lemma SpliceWellFormed<V>(c: Container<V>, k: nat)
    requires WellFormed(c) && k < |c.columns|
    ensures WellFormed(Container(c.columns[..k] + c.columns[k + 1..], c.size))
    ensures c.columns[k].name !in Names(Container(c.columns[..k] + c.columns[k + 1..], c.size))
  {
    var r := Container(c.columns[..k] + c.columns[k + 1..], c.size);
    assert forall j :: 0 <= j < |r.columns| ==> r.columns[j] == c.columns[if j < k then j else j + 1];
    assert forall j :: 0 <= j < |r.columns| ==> Names(r)[j] != c.columns[k].name;
  }

  function ResizeColumn<V>(col: Column<V>, n: nat): Column<V>
  {
    col.(data := if n <= |col.data| then col.data[..n] else col.data + seq(n - |col.data|, _ => col.default))
  }

  /** Grows or shrinks every property array to `n` entries; new entries take the array's default. */
  function Resize<V>(c: Container<V>, n: nat): (r: Container<V>)
    ensures Aligned(r) && r.size == n && SameShape(c, r) && Names(r) == Names(c)
    ensures DistinctNames(c) ==> DistinctNames(r)
    ensures forall k, i :: 0 <= k < |c.columns| && 0 <= i < n ==>
      r.columns[k].data[i] == if i < |c.columns[k].data| then c.columns[k].data[i] else c.columns[k].default
  {
    Container(seq(|c.columns|, k requires 0 <= k < |c.columns| => ResizeColumn(c.columns[k], n)), n)
  }

  /** Appends one element whose entries are the arrays' defaults. */
  function PushBack<V>(c: Container<V>): (r: Container<V>)
    ensures Aligned(r) && r.size == c.size + 1 && SameShape(c, r) && Names(r) == Names(c)
    ensures DistinctNames(c) ==> DistinctNames(r)
    ensures Aligned(c) ==> forall k, i :: 0 <= k < |c.columns| && 0 <= i < c.size ==>
      r.columns[k].data[i] == c.columns[k].data[i]
    ensures Aligned(c) ==> forall k :: 0 <= k < |c.columns| ==> r.columns[k].data[c.size] == c.columns[k].default
  {
    Resize(c, c.size + 1)
  }

  function SwapColumn<V>(col: Column<V>, i: nat, j: nat): Column<V>
    requires i < |col.data| && j < |col.data|
  {
    col.(data := col.data[i := col.data[j]][j := col.data[i]])
  }

  /** Exchanges the whole rows `i` and `j`: the entries of every property array at once. */
  function SwapRows<V>(c: Container<V>, i: nat, j: nat): (r: Container<V>)
    requires Aligned(c) && i < c.size && j < c.size
    ensures Aligned(r) && r.size == c.size && SameShape(c, r) && Names(r) == Names(c)
    ensures DistinctNames(c) ==> DistinctNames(r)
    ensures forall k, x :: 0 <= k < |c.columns| && 0 <= x < c.size ==>
      r.columns[k].data[x] == c.columns[k].data[if x == i then j else if x == j then i else x]
  {
    Container(seq(|c.columns|, k requires 0 <= k < |c.columns| => SwapColumn(c.columns[k], i, j)), c.size)
  }

  /** Writes one entry: element `i` of the array at position `col`. */
  function SetCell<V>(c: Container<V>, col: nat, i: nat, v: V): (r: Container<V>)
    requires col < |c.columns| && i < |c.columns[col].data|
    ensures r.size == c.size && SameShape(c, r) && Names(r) == Names(c)
    ensures Aligned(c) ==> Aligned(r)
    ensures DistinctNames(c) ==> DistinctNames(r)
    ensures r.columns[col].data == c.columns[col].data[i := v]
    ensures forall k :: 0 <= k < |c.columns| && k != col ==> r.columns[k] == c.columns[k]
  {
    c.(columns := c.columns[col := c.columns[col].(data := c.columns[col].data[i := v])])
  }

  /** Replaces the whole contents of the array at position `col`. */
  function SetArray<V>(c: Container<V>, col: nat, data: seq<V>): (r: Container<V>)
    requires col < |c.columns|
    ensures r.size == c.size && SameShape(c, r) && Names(r) == Names(c)
    ensures DistinctNames(c) ==> DistinctNames(r)
    ensures Aligned(c) && |data| == c.size ==> Aligned(r)
    ensures r.columns[col].data == data
    ensures forall k :: 0 <= k < |c.columns| && k != col ==> r.columns[k] == c.columns[k]
  {
    c.(columns := c.columns[col := c.columns[col].(data := data)])
  }

  /** Keeps the first `n` property arrays and drops the others. */
  function KeepFirst<V>(c: Container<V>, n: nat): (r: Container<V>)
    requires n <= |c.columns|
    ensures r.size == c.size && Names(r) == Names(c)[..n]
    ensures r.columns == c.columns[..n]
    ensures WellFormed(c) ==> WellFormed(r)
  {
    Container(c.columns[..n], c.size)
  }

  function TransferColumn<V>(col: Column<V>, other: Container<V>, n: nat): Column<V>
    requires |col.data| == n && Aligned(other) && other.size <= n
  {
    match Find(other, col.name)
    case None => col
    case Some(j) => col.(data := col.data[..n - other.size] + other.columns[j].data)
  }

  /** Copies every array of `other` into the last `other.size` entries of the
      array of the same name; arrays that `other` lacks keep their entries. */
  function Transfer<V>(c: Container<V>, other: Container<V>): (r: Container<V>)
    requires Aligned(c) && Aligned(other) && other.size <= c.size
    ensures Aligned(r) && r.size == c.size && SameShape(c, r) && Names(r) == Names(c)
    ensures DistinctNames(c) ==> DistinctNames(r)
    ensures forall k, i :: 0 <= k < |c.columns| && 0 <= i < c.size ==>
      r.columns[k].data[i] ==
        if i < c.size - other.size || Find(other, c.columns[k].name).None? then c.columns[k].data[i]
        else other.columns[Find(other, c.columns[k].name).value].data[i - (c.size - other.size)]
  {
    Container(seq(|c.columns|, k requires 0 <= k < |c.columns| => TransferColumn(c.columns[k], other, c.size)), c.size)
  }

  /** Two aligned containers of the same shape and the same entries are equal. */
  lemma ContainerExt<V>(a: Container<V>, b: Container<V>)
    requires Aligned(a) && Aligned(b) && a.size == b.size && SameShape(a, b)
    requires forall k, i :: 0 <= k < |a.columns| && 0 <= i < a.size ==> a.columns[k].data[i] == b.columns[k].data[i]
    ensures a == b
  {
    forall k | 0 <= k < |a.columns|
      ensures a.columns[k] == b.columns[k]
    {
      assert a.columns[k].data == b.columns[k].data;
    }
    assert a.columns == b.columns;
  }

  /** Swapping the same two rows twice restores the container. */
  lemma SwapRowsTwice<V>(c: Container<V>, i: nat, j: nat)
    requires Aligned(c) && i < c.size && j < c.size
    ensures SwapRows(SwapRows(c, i, j), i, j) == c
  {
    ContainerExt(SwapRows(SwapRows(c, i, j), i, j), c);
  }

  /** Resizing a container to its own element count changes nothing. */
  lemma ResizeToSize<V>(c: Container<V>)
    requires Aligned(c)
    ensures Resize(c, c.size) == c
  {
    ContainerExt(Resize(c, c.size), c);
  }

  /** Removing a freshly added property array gives back the original container. */
  lemma RemoveUndoesAdd<V>(c: Container<V>, name: string, default: V)
    requires WellFormed(c) && name !in Names(c)
    ensures Add(c, name, default).Some?
    ensures Remove(Add(c, name, default).value, name) == c
  {
    var added := Add(c, name, default).value;
    var n := |c.columns|;
    assert added.columns[n].name == name by {
      assert Names(added)[n] == name;
    }
    var k := Find(added, name).value;
    assert k == n;
    assert added.columns[..n] + added.columns[n + 1..] == c.columns;
  }
}

/** The square interaction matrix (DefaultMatrix.java): a size x size grid of
    cells, written in place. Cells are reals; the Java array of row arrays is
    a two-dimensional array. */
module Matrices {

  class DefaultMatrix {
    const size: nat
    const values: array2<real>

    ghost predicate Valid()
      reads this
    {
      values.Length0 == size && values.Length1 == size
    }

    /** `new DefaultMatrix(size)`: a fresh size x size matrix of zeros. */
    constructor (size: nat)
      ensures Valid() && this.size == size && fresh(values)
      ensures forall i, j :: 0 <= i < size && 0 <= j < size ==> values[i, j] == 0.0
    {
      this.size := size;
      values := new real[size, size];
      new;
      Zero();
    }

    /** `zero()`: sets every cell to 0. */
    method Zero()
      requires Valid()
      modifies values
      ensures forall i, j :: 0 <= i < size && 0 <= j < size ==> values[i, j] == 0.0
    {
      for i := 0 to size
        invariant forall p, q :: 0 <= p < i && 0 <= q < size ==> values[p, q] == 0.0
      {
        for j := 0 to size
          invariant forall p, q :: 0 <= p < i && 0 <= q < size ==> values[p, q] == 0.0
          invariant forall q :: 0 <= q < j ==> values[i, q] == 0.0
        {
          values[i, j] := 0.0;
        }
      }
    }

    /** `size()`: the number of rows, which is also the number of columns. */
    function Size(): (r: nat)
      requires Valid()
      reads this
      ensures r == values.Length0 && r == values.Length1
    {
      size
    }

    /** `get(i, j)`: the cell in row i, column j. */
    function Get(i: nat, j: nat): (r: real)
      requires Valid() && i < size && j < size
      reads this, values
      ensures r == values[i, j]
    {
      values[i, j]
    }

    /** `set(i, j, value)`: overwrites one cell and no other. */
    method Set(i: nat, j: nat, value: real)
      requires Valid() && i < size && j < size
      modifies values
      ensures Get(i, j) == value
      ensures forall p, q :: 0 <= p < size && 0 <= q < size && (p, q) != (i, j) ==>
        values[p, q] == old(values[p, q])
    {
      values[i, j] := value;
    }

    /** `deepCopy()`: a fresh matrix of the same size with equal cells, that
        shares no storage with this one. */
    method DeepCopy() returns (copy: DefaultMatrix)
      requires Valid()
      ensures fresh(copy) && fresh(copy.values) && copy.Valid()
      ensures SameCells(copy, this)
    {
      copy := new DefaultMatrix(size);
      for i := 0 to size
        invariant forall p, q :: 0 <= p < i && 0 <= q < size ==> copy.values[p, q] == values[p, q]
      {
        for j := 0 to size
          invariant forall p, q :: 0 <= p < i && 0 <= q < size ==> copy.values[p, q] == values[p, q]
          invariant forall q :: 0 <= q < j ==> copy.values[i, q] == values[i, q]
        {
          copy.values[i, j] := values[i, j];
        }
      }
    }

    /** `equals(o)`: true exactly when o is a matrix of the same size whose
        cells all equal this one's. */
    method Equals(o: Obj) returns (eq: bool)
      requires Valid()
      requires o.AMatrix? ==> o.m.Valid()
      ensures eq <==> o.AMatrix? && SameCells(this, o.m)
    {
      match o
      case Other =>
        return false;
      case AMatrix(m) =>
        if m.Size() != size {
          return false;
        }
        for i := 0 to size
          invariant forall p, q :: 0 <= p < i && 0 <= q < size ==> m.values[p, q] == values[p, q]
        {
          for j := 0 to size
            invariant forall p, q :: 0 <= p < i && 0 <= q < size ==> m.values[p, q] == values[p, q]
            invariant forall q :: 0 <= q < j ==> m.values[i, q] == values[i, q]
          {
            if m.Get(i, j) != Get(i, j) {
              return false;
            }
          }
        }
        return true;
    }
  }

  /** The argument of `equals(Object)`: a matrix, or any other object. */
  datatype Obj = AMatrix(m: DefaultMatrix) | Other

  /** Two matrices of the same size with equal cells. */
  ghost predicate SameCells(a: DefaultMatrix, b: DefaultMatrix)
    reads a, b, a.values, b.values
    requires a.Valid() && b.Valid()
  {
    a.size == b.size &&
    forall i, j :: 0 <= i < a.size && 0 <= j < a.size ==> a.values[i, j] == b.values[i, j]
  }

  /** Every matrix equals itself. */
  method EqualsReflexive(m: DefaultMatrix) returns (eq: bool)
    requires m.Valid()
    ensures eq
  {
    eq := m.Equals(AMatrix(m));
  }

  /** Matrices of different sizes are never equal. */
  method EqualsSizeMismatch(a: DefaultMatrix, b: DefaultMatrix) returns (eq: bool)
    requires a.Valid() && b.Valid() && a.size != b.size
    ensures !eq
  {
    eq := a.Equals(AMatrix(b));
  }

  /** A deep copy equals the original, in both directions. */
  method CopyEqualsOriginal(m: DefaultMatrix) returns (copyEqualsM: bool, mEqualsCopy: bool)
    requires m.Valid()
    ensures copyEqualsM && mEqualsCopy
  {
    var c := m.DeepCopy();
    copyEqualsM := c.Equals(AMatrix(m));
    mEqualsCopy := m.Equals(AMatrix(c));
  }

  /** Setting a cell of the copy leaves the original untouched. */
  method SetOnCopy(m: DefaultMatrix, i: nat, j: nat, v: real) returns (copyCell: real, originalCell: real)
    requires m.Valid() && i < m.size && j < m.size
    ensures copyCell == v && originalCell == m.values[i, j]
  {
    var c := m.DeepCopy();
    c.Set(i, j, v);
    copyCell := c.Get(i, j);
    originalCell := m.Get(i, j);
  }

  /** Setting a cell of the original leaves a copy taken before untouched:
      the copy keeps every cell the original had. */
  method SetOnOriginal(m: DefaultMatrix, i: nat, j: nat, v: real) returns (copy: DefaultMatrix)
    requires m.Valid() && i < m.size && j < m.size
    modifies m.values
    ensures fresh(copy) && copy.Valid() && copy.size == m.size
    ensures m.values[i, j] == v
    ensures forall p, q :: 0 <= p < m.size && 0 <= q < m.size ==> copy.values[p, q] == old(m.values[p, q])
  {
    copy := m.DeepCopy();
    m.Set(i, j, v);
  }
}

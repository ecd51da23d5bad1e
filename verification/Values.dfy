/** Column values, three-valued truth and the comparison of `providers/parquet/skip.go`. */
module Values {

  /** A Go byte. A `char` stands for one byte throughout, so Go strings and byte slices are both `seq<char>`. */
  type Byte = c: char | c as int < 256 witness 'a'

  // ----- SQL truth values -----

  datatype Truth = True | False | Unknown

  function And3(a: Truth, b: Truth): Truth {
    if a.False? || b.False? then False
    else if a.True? && b.True? then True
    else Unknown
  }

  function Or3(a: Truth, b: Truth): Truth {
    if a.True? || b.True? then True
    else if a.False? && b.False? then False
    else Unknown
  }

  function Not3(a: Truth): Truth {
    match a
    case True => False
    case False => True
    case Unknown => Unknown
  }

  /** Where a truth value stands between false and true. */
  function Rank(a: Truth): int {
    match a
    case False => -1
    case Unknown => 0
    case True => 1
  }

  /** AND is the lesser, OR the greater and NOT the opposite of what it is given. */
  lemma TruthIsKleene(a: Truth, b: Truth)
    ensures Rank(And3(a, b)) == if Rank(a) < Rank(b) then Rank(a) else Rank(b)
    ensures Rank(Or3(a, b)) == if Rank(a) < Rank(b) then Rank(b) else Rank(a)
    ensures Rank(Not3(a)) == -Rank(a)
  {
  }

  function Decided(b: bool): Truth {
    if b then True else False
  }

  // ----- Floats -----

  /** An IEEE value up to rounding; the two zeros are different values that compare equal. */
  datatype Float = NaN | NegInf | NegZero | Fin(r: real) | PosInf

  predicate IsFinite(f: Float) {
    f.NegZero? || f.Fin?
  }

  function FloatClass(f: Float): int {
    if f.NegInf? then -1 else if f.PosInf? then 1 else 0
  }

  function FloatReal(f: Float): real {
    if f.Fin? then f.r else 0.0
  }

  /** The `<` of Go: false whenever an operand is NaN. */
  predicate FloatLess(a: Float, b: Float) {
    && !a.NaN? && !b.NaN?
    && (FloatClass(a) < FloatClass(b) || (FloatClass(a) == FloatClass(b) == 0 && FloatReal(a) < FloatReal(b)))
  }

  // ----- Values in a column's comparison domain -----

  datatype Domain = DomainBool | DomainInt | DomainUint | DomainFloat | DomainBytes

  datatype StatValue =
    | BoolVal(b: bool)
    | IntVal(i: int)
    | UintVal(u: int)
    | FloatVal(f: Float)
    | BytesVal(bytes: seq<char>)

  function DomainOf(v: StatValue): Domain {
    match v
    case BoolVal(_) => DomainBool
    case IntVal(_) => DomainInt
    case UintVal(_) => DomainUint
    case FloatVal(_) => DomainFloat
    case BytesVal(_) => DomainBytes
  }

  predicate IsNaN(v: StatValue) {
    v.FloatVal? && v.f.NaN?
  }

  /** A row's value of one column. */
  datatype Cell = Null | Val(v: StatValue)

  type Row = seq<Cell>

  function CellAt(row: Row, i: int): Cell {
    if 0 <= i < |row| then row[i] else Null
  }

  // ----- Comparison -----

  function Sign(i: int): int {
    if i < 0 then -1 else if i > 0 then 1 else 0
  }

  function CompareInt(a: int, b: int): int {
    if a < b then -1 else if a > b then 1 else 0
  }

  function CompareFloat(a: Float, b: Float): int {
    if FloatLess(a, b) then -1 else if FloatLess(b, a) then 1 else 0
  }

  /** `bytes.Compare`: lexicographic order. */
  function CompareBytes(a: seq<char>, b: seq<char>): int {
    if a == [] then (if b == [] then 0 else -1)
    else if b == [] then 1
    else if a[0] < b[0] then -1
    else if a[0] > b[0] then 1
    else CompareBytes(a[1..], b[1..])
  }

  /** `cmpVal`. Its callers pass values of one domain and no NaN. */
  function CmpVal(a: StatValue, b: StatValue): int
    requires DomainOf(a) == DomainOf(b)
  {
    match a
    case BoolVal(x) => if x == b.b then 0 else if !x then -1 else 1
    case IntVal(x) => CompareInt(x, b.i)
    case UintVal(x) => CompareInt(x, b.u)
    case FloatVal(x) => CompareFloat(x, b.f)
    case BytesVal(x) => CompareBytes(x, b.bytes)
  }

  /** The order the engine filters rows by: `CmpVal`, with NaN as the greatest float. */
  function TotalCmp(a: StatValue, b: StatValue): int
    requires DomainOf(a) == DomainOf(b)
  {
    if IsNaN(a) then (if IsNaN(b) then 0 else 1)
    else if IsNaN(b) then -1
    else CmpVal(a, b)
  }

  // ----- What the order is, without the comparison -----

  ghost predicate FloatBelow(a: Float, b: Float) {
    && !a.NaN? && a != b
    && (|| b.NaN? || a.NegInf? || b.PosInf?
        || (IsFinite(a) && IsFinite(b) && (if a.Fin? then a.r else 0.0) < (if b.Fin? then b.r else 0.0)))
  }

  /** Lexicographic: after a common prefix a ends first, or has the smaller byte. */
  ghost predicate BytesBelow(a: seq<char>, b: seq<char>) {
    exists k :: 0 <= k <= |a| && k < |b| && a[..k] == b[..k] && (k == |a| || a[k] < b[k])
  }

  /** False before true, numbers by size, NaN after every other float, bytes lexicographically. */
  ghost predicate Below(a: StatValue, b: StatValue)
    requires DomainOf(a) == DomainOf(b)
  {
    match a
    case BoolVal(x) => !x && b.b
    case IntVal(x) => x < b.i
    case UintVal(x) => x < b.u
    case FloatVal(x) => FloatBelow(x, b.f)
    case BytesVal(x) => BytesBelow(x, b.bytes)
  }

  /** The sign says how x and v are ordered. */
  ghost predicate InOrder(sign: int, x: StatValue, v: StatValue)
    requires DomainOf(x) == DomainOf(v)
  {
    (sign < 0 <==> Below(x, v)) && (sign > 0 <==> Below(v, x))
  }

  lemma {:induction false} CompareBytesIsLexicographic(a: seq<char>, b: seq<char>)
    ensures CompareBytes(a, b) < 0 <==> BytesBelow(a, b)
  {
    if a == [] {
      assert b != [] ==> a[..0] == b[..0];
    } else if b != [] && a[0] == b[0] {
      CompareBytesIsLexicographic(a[1..], b[1..]);
      if BytesBelow(a[1..], b[1..]) {
        var k :| 0 <= k <= |a[1..]| && k < |b[1..]| && a[1..][..k] == b[1..][..k]
          && (k == |a[1..]| || a[1..][k] < b[1..][k]);
        assert a[..k + 1] == [a[0]] + a[1..][..k] && b[..k + 1] == [b[0]] + b[1..][..k];
      }
      if BytesBelow(a, b) {
        var k :| 0 <= k <= |a| && k < |b| && a[..k] == b[..k] && (k == |a| || a[k] < b[k]);
        assert a[1..][..k - 1] == a[..k][1..] && b[1..][..k - 1] == b[..k][1..];
      }
    } else if b != [] {
      assert a[0] < b[0] ==> a[..0] == b[..0];
      assert forall k | 0 < k <= |a| && k < |b| :: a[..k][0] == a[0] && b[..k][0] == b[0];
    }
  }

  /** The comparison decides exactly that order, in both directions, in every domain. */
  lemma TotalCmpIsOrder(a: StatValue, b: StatValue)
    requires DomainOf(a) == DomainOf(b)
    ensures TotalCmp(a, b) < 0 <==> Below(a, b)
    ensures TotalCmp(a, b) > 0 <==> Below(b, a)
  {
    if a.BytesVal? {
      CompareBytesIsLexicographic(a.bytes, b.bytes);
      CompareBytesIsLexicographic(b.bytes, a.bytes);
      CompareBytesFlips(a.bytes, b.bytes);
    }
  }

  lemma {:induction false} CompareBytesFlips(a: seq<char>, b: seq<char>)
    ensures CompareBytes(a, b) == -CompareBytes(b, a)
    ensures CompareBytes(a, b) == 0 <==> a == b
  {
    if a != [] && b != [] {
      CompareBytesFlips(a[1..], b[1..]);
      assert a == [a[0]] + a[1..] && b == [b[0]] + b[1..];
    }
  }

  lemma {:induction false} CompareBytesTransitive(a: seq<char>, b: seq<char>, c: seq<char>)
    requires CompareBytes(a, b) <= 0 && CompareBytes(b, c) <= 0
    ensures CompareBytes(a, c) <= 0
  {
    if a != [] && b != [] && c != [] && a[0] == b[0] == c[0] {
      CompareBytesTransitive(a[1..], b[1..], c[1..]);
    }
  }

  /** Every two values of a domain are ordered one way or the other. */
  lemma TotalCmpFlips(a: StatValue, b: StatValue)
    requires DomainOf(a) == DomainOf(b)
    ensures TotalCmp(a, b) == -TotalCmp(b, a)
    ensures TotalCmp(a, a) == 0
  {
    if a.BytesVal? {
      CompareBytesFlips(a.bytes, b.bytes);
      CompareBytesFlips(a.bytes, a.bytes);
    }
  }

  lemma TotalCmpTransitive(a: StatValue, b: StatValue, c: StatValue)
    requires DomainOf(a) == DomainOf(b) == DomainOf(c)
    requires TotalCmp(a, b) <= 0 && TotalCmp(b, c) <= 0
    ensures TotalCmp(a, c) <= 0
  {
    if a.BytesVal? {
      CompareBytesTransitive(a.bytes, b.bytes, c.bytes);
    }
  }

  /** `cmpVal` is a total preorder on a domain exactly when NaN stays out of it. */
  lemma CmpValPreorderIffNoNaN(a: StatValue)
    ensures !IsNaN(a) <==>
            forall b, c | DomainOf(a) == DomainOf(b) == DomainOf(c) && !IsNaN(b) && !IsNaN(c) ::
              && CmpVal(a, b) == -CmpVal(b, a)
              && (CmpVal(b, a) <= 0 && CmpVal(a, c) <= 0 ==> CmpVal(b, c) <= 0)
  {
    if IsNaN(a) {
      var b, c := FloatVal(Fin(2.0)), FloatVal(Fin(1.0));
      assert CmpVal(b, a) == 0 && CmpVal(a, c) == 0 && CmpVal(b, c) == 1;
    } else {
      forall b, c | DomainOf(a) == DomainOf(b) == DomainOf(c) && !IsNaN(b) && !IsNaN(c)
        ensures CmpVal(a, b) == -CmpVal(b, a)
        ensures CmpVal(b, a) <= 0 && CmpVal(a, c) <= 0 ==> CmpVal(b, c) <= 0
      {
        TotalCmpFlips(a, b);
        if CmpVal(b, a) <= 0 && CmpVal(a, c) <= 0 {
          TotalCmpTransitive(b, a, c);
        }
      }
    }
  }
}
